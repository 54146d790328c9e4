/**
 * Which files go into a package archive, and how they are named there
 * (src/package_contents.rs). The zip encoding is not modelled: an archive
 * is the sequence of entries written into it.
 */
module PackageContentsModel {
  import opened Wrappers
  import opened Strings
  import opened Manifests
  import opened Bytes

  /** One entry of a package archive. */
  datatype ArchiveEntry =
    | DirectoryEntry(name: string)
    | FileEntry(name: string, data: seq<byte>)

  /** `PackageContents`: the archive of a package. */
  datatype PackageContents = PackageContents(entries: seq<ArchiveEntry>)

  /** Patterns every package excludes, after the manifest's own and the `.gitignore` ones. */
  const EXCLUDED_GLOBS: seq<string> := [".*", "wally.lock", "Packages", "ServerPackages"]

  /** A directory tree below the package root; children are listed in walk order. */
  datatype Node =
    | FileNode(bytes: seq<byte>)
    | DirNode(children: seq<(string, Node)>)

  /** A `GlobSet` matches a path when one of its patterns does (`glob` decides a single pattern). */
  predicate AnyMatch(patterns: seq<string>, glob: (string, string) -> bool, path: string)
  {
    exists i :: 0 <= i < |patterns| && glob(patterns[i], path)
  }

  /**
   * The exclude list: the manifest's `exclude`, then the `.gitignore` lines
   * when `include` is empty and a `.gitignore` was found, then `EXCLUDED_GLOBS`.
   */
  method BuildExcludes(includes: seq<string>, manifestExcludes: seq<string>, gitignore: Option<seq<string>>)
    returns (excludes: seq<string>)
    ensures excludes == manifestExcludes
      + (if includes == [] && gitignore.Some? then gitignore.value else [])
      + EXCLUDED_GLOBS
  {
    excludes := manifestExcludes;
    if includes == [] && gitignore.Some? {
      var lines := gitignore.value;
      for i := 0 to |lines|
        invariant excludes == manifestExcludes + lines[..i]
      {
        excludes := excludes + [lines[i]];
      }
      assert lines[..|lines|] == lines;
    }
    var extra := EXCLUDED_GLOBS;
    ghost var before := excludes;
    for i := 0 to |extra|
      invariant excludes == before + extra[..i]
    {
      excludes := excludes + [extra[i]];
    }
    assert extra[..|extra|] == extra;
  }

  /** The `filter_entry` test on a path relative to the package root. */
  predicate Keep(includes: seq<string>, excludes: seq<string>, glob: (string, string) -> bool, relative: string)
  {
    (includes != [] && AnyMatch(includes, glob, relative)) || !AnyMatch(excludes, glob, relative)
  }

  /** An include match wins over every exclude; without includes, an exclude match drops the path. */
  lemma KeepIncludesFirst(includes: seq<string>, excludes: seq<string>, glob: (string, string) -> bool, relative: string)
    ensures includes != [] && AnyMatch(includes, glob, relative) ==> Keep(includes, excludes, glob, relative)
    ensures includes == [] ==> (Keep(includes, excludes, glob, relative) <==> !AnyMatch(excludes, glob, relative))
    ensures !AnyMatch(includes, glob, relative) ==> (Keep(includes, excludes, glob, relative) <==> !AnyMatch(excludes, glob, relative))
  {
  }

  /** Whatever the manifest says, a path one of `EXCLUDED_GLOBS` matches is dropped unless an include pattern matches it. */
  lemma DefaultExclusionsApply(
    includes: seq<string>, manifestExcludes: seq<string>, gitignore: Option<seq<string>>,
    glob: (string, string) -> bool, k: nat, relative: string)
    requires k < |EXCLUDED_GLOBS| && glob(EXCLUDED_GLOBS[k], relative)
    requires !AnyMatch(includes, glob, relative)
    ensures !Keep(includes, manifestExcludes
      + (if includes == [] && gitignore.Some? then gitignore.value else [])
      + EXCLUDED_GLOBS, glob, relative)
  {
    var excludes := manifestExcludes
      + (if includes == [] && gitignore.Some? then gitignore.value else [])
      + EXCLUDED_GLOBS;
    var j := |excludes| - |EXCLUDED_GLOBS| + k;
    assert excludes[j] == EXCLUDED_GLOBS[k];
  }

  function ChildPath(prefix: string, name: string): string
  {
    if prefix == [] then name else prefix + "/" + name
  }

  /**
   * `WalkDir` with `filter_entry`: the entries of `dir` from its `i`th child
   * on, parents before children, each paired with its path relative to the
   * package root. A rejected directory is not descended into.
   */
  function Walk(dir: Node, i: nat, prefix: string, keep: string -> bool): (r: seq<(string, Node)>)
    requires dir.DirNode?
    ensures forall k :: 0 <= k < |r| ==> keep(r[k].0)
    decreases dir, |dir.children| - i
  {
    if i >= |dir.children| then []
    else
      var child := dir.children[i];
      var path := ChildPath(prefix, child.0);
      var here := if !keep(path) then []
        else [(path, child.1)] + (if child.1.DirNode? then Walk(child.1, 0, path, keep) else []);
      here + Walk(dir, i + 1, prefix, keep)
  }

  /** Nothing below a rejected directory is listed, even when the filter would keep it. */
  lemma WalkPrunes(dir: Node, i: nat, prefix: string, keep: string -> bool)
    requires dir.DirNode? && i < |dir.children|
    requires !keep(ChildPath(prefix, dir.children[i].0))
    ensures Walk(dir, i, prefix, keep) == Walk(dir, i + 1, prefix, keep)
  {
  }

  /** A kept child is listed, followed by what is kept below it. */
  lemma WalkKeeps(dir: Node, i: nat, prefix: string, keep: string -> bool)
    requires dir.DirNode? && i < |dir.children|
    requires keep(ChildPath(prefix, dir.children[i].0))
    ensures var path := ChildPath(prefix, dir.children[i].0);
      Walk(dir, i, prefix, keep)[0] == (path, dir.children[i].1)
  {
  }

  /** Archive names use '/' only: every '\' becomes '/'. */
  function ArchiveName(relative: string): (r: string)
    ensures |r| == |relative| && '\\' !in r
    ensures forall i :: 0 <= i < |r| && relative[i] != '\\' ==> r[i] == relative[i]
  {
    ReplaceChar(relative, '\\', '/')
  }

  /** `Path::ends_with("default.project.json")`: the last component is that file name. */
  predicate IsProjectFile(relative: string)
  {
    var f := "default.project.json";
    relative == f || (|relative| > |f| && relative[|relative| - |f|..] == f && relative[|relative| - |f| - 1] == '/')
  }

  /**
   * The archive for the walked entries. `projectName` reads the string
   * "name" of a `default.project.json` (None when the file is not JSON or
   * has no string name, which the source reports as an error or a panic);
   * `render` pretty-prints that document with its "name" set to the given value.
   */
  method PackEntries(
    packageName: string,
    entries: seq<(string, Node)>,
    projectName: seq<byte> -> Option<string>,
    render: (seq<byte>, string) -> seq<byte>)
    returns (r: Result<PackageContents, string>)
    ensures r.Ok? ==> |r.value.entries| == |entries| && Packed(packageName, entries, render, r.value.entries)
    ensures r.Err? <==> !NamesReadable(entries, projectName, |entries|)
  {
    var written: seq<ArchiveEntry> := [];
    for i := 0 to |entries|
      invariant |written| == i
      invariant Packed(packageName, entries, render, written)
      invariant NamesReadable(entries, projectName, i)
    {
      var entry := PackEntry(packageName, entries[i], projectName, render);
      if entry.None? {
        ReadableStops(entries, projectName, i);
        return Err("Couldn't parse name in default.project.json");
      }
      PackedSnoc(packageName, entries, render, written, entry.value);
      ReadableStep(entries, projectName, i);
      written := written + [entry.value];
    }
    return Ok(PackageContents(written));
  }

  /** The body of the packing loop: the entry for one walked path, or None when its project name cannot be read. */
  method PackEntry(packageName: string, e: (string, Node), projectName: seq<byte> -> Option<string>, render: (seq<byte>, string) -> seq<byte>)
    returns (r: Option<ArchiveEntry>)
    ensures r.None? <==> NameUnreadable(e, projectName)
    ensures r.Some? ==> r.value == EntryFor(packageName, e, render)
  {
    var (path, node) := e;
    var name := ArchiveName(path);
    if node.DirNode? {
      return Some(DirectoryEntry(name));
    } else if IsProjectFile(path) {
      var current := projectName(node.bytes);
      if current.None? {
        return None;
      }
      // The name is rewritten when it differs; the document is re-serialised either way.
      var newName := if current.value != packageName then packageName else current.value;
      return Some(FileEntry(name, render(node.bytes, newName)));
    } else {
      return Some(FileEntry(name, node.bytes));
    }
  }

  predicate NeedsProjectName(e: (string, Node))
  {
    e.1.FileNode? && IsProjectFile(e.0)
  }

  /** A `default.project.json` whose name cannot be read. */
  predicate NameUnreadable(e: (string, Node), projectName: seq<byte> -> Option<string>)
  {
    NeedsProjectName(e) && projectName(e.1.bytes).None?
  }

  /** No `default.project.json` among the first `n` walked paths has an unreadable name. */
  ghost predicate NamesReadable(entries: seq<(string, Node)>, projectName: seq<byte> -> Option<string>, n: nat)
  {
    n <= |entries| && forall k :: 0 <= k < n ==> !NameUnreadable(entries[k], projectName)
  }

  lemma ReadableStops(entries: seq<(string, Node)>, projectName: seq<byte> -> Option<string>, n: nat)
    requires n < |entries| && NameUnreadable(entries[n], projectName)
    ensures !NamesReadable(entries, projectName, |entries|)
  {
  }

  lemma ReadableStep(entries: seq<(string, Node)>, projectName: seq<byte> -> Option<string>, n: nat)
    requires NamesReadable(entries, projectName, n) && n < |entries| && !NameUnreadable(entries[n], projectName)
    ensures NamesReadable(entries, projectName, n + 1)
  {
  }

  /** `written` holds the entries for the first `|written|` walked paths. */
  ghost predicate Packed(packageName: string, entries: seq<(string, Node)>, render: (seq<byte>, string) -> seq<byte>, written: seq<ArchiveEntry>)
  {
    |written| <= |entries| && forall k :: 0 <= k < |written| ==> written[k] == EntryFor(packageName, entries[k], render)
  }

  lemma PackedSnoc(packageName: string, entries: seq<(string, Node)>, render: (seq<byte>, string) -> seq<byte>, written: seq<ArchiveEntry>, entry: ArchiveEntry)
    requires Packed(packageName, entries, render, written) && |written| < |entries|
    requires entry == EntryFor(packageName, entries[|written|], render)
    ensures Packed(packageName, entries, render, written + [entry])
  {
    var next := written + [entry];
    assert forall k :: 0 <= k < |written| ==> next[k] == written[k];
    assert next[|written|] == entry;
  }

  /** The entry written for one walked path. */
  function EntryFor(packageName: string, e: (string, Node), render: (seq<byte>, string) -> seq<byte>): (a: ArchiveEntry)
    ensures a.name == ArchiveName(e.0)
    ensures a.DirectoryEntry? <==> e.1.DirNode?
    ensures e.1.FileNode? && !IsProjectFile(e.0) ==> a == FileEntry(ArchiveName(e.0), e.1.bytes)
    ensures NeedsProjectName(e) ==> a == FileEntry(ArchiveName(e.0), render(e.1.bytes, packageName))
  {
    if e.1.DirNode? then DirectoryEntry(ArchiveName(e.0))
    else if IsProjectFile(e.0) then FileEntry(ArchiveName(e.0), render(e.1.bytes, packageName))
    else FileEntry(ArchiveName(e.0), e.1.bytes)
  }

  /**
   * `pack_from_path`: build the filter from the manifest (`include`,
   * `exclude`, and the `.gitignore` lines passed in), walk the tree, and
   * pack what is kept. `validGlob` stands for `Glob::new` accepting a pattern.
   */
  method PackFromTree(
    manifest: Manifest,
    root: Node,
    gitignore: Option<seq<string>>,
    glob: (string, string) -> bool,
    validGlob: string -> bool,
    projectName: seq<byte> -> Option<string>,
    render: (seq<byte>, string) -> seq<byte>)
    returns (r: Result<PackageContents, string>)
    requires root.DirNode?
    ensures (exists i :: 0 <= i < |manifest.package.includes| && !validGlob(manifest.package.includes[i])) ==> r.Err?
    ensures (exists i :: 0 <= i < |Excludes(manifest, gitignore)| && !validGlob(Excludes(manifest, gitignore)[i])) ==> r.Err?
    ensures r.Ok? ==>
      var walked := Walk(root, 0, "", Filter(manifest, gitignore, glob));
      |r.value.entries| == |walked| && Packed(manifest.package.name.name, walked, render, r.value.entries)
    ensures r.Ok? ==> forall i :: 0 <= i < |r.value.entries| ==> '\\' !in r.value.entries[i].name
  {
    var includes := manifest.package.includes;
    var excludes := BuildExcludes(includes, manifest.package.excludes, gitignore);
    assert excludes == Excludes(manifest, gitignore);
    if exists i :: 0 <= i < |includes| && !validGlob(includes[i]) {
      return Err("invalid include pattern");
    }
    if exists i :: 0 <= i < |excludes| && !validGlob(excludes[i]) {
      return Err("invalid exclude pattern");
    }
    var walked := Walk(root, 0, "", Filter(manifest, gitignore, glob));
    r := PackEntries(manifest.package.name.name, walked, projectName, render);
  }

  /** The exclude list `filtered_contents` builds for a manifest. */
  function Excludes(manifest: Manifest, gitignore: Option<seq<string>>): seq<string>
  {
    manifest.package.excludes
      + (if manifest.package.includes == [] && gitignore.Some? then gitignore.value else [])
      + EXCLUDED_GLOBS
  }

  /** The `filter_entry` closure of `filtered_contents`. */
  function Filter(manifest: Manifest, gitignore: Option<seq<string>>, glob: (string, string) -> bool): string -> bool
  {
    (p: string) => Keep(manifest.package.includes, Excludes(manifest, gitignore), glob, p)
  }
}
