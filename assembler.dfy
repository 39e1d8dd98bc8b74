/** `Load` and `LoadAll`: assemble one project record from a description file, and a batch
    of them followed by the linking pass.

    Reading files is outside the model: a file's contents arrive as a `Result` (the error
    of a failed read, or the text), and what the outer regular expressions capture from the
    text arrives as a `ProjectScan`. Paths are segment sequences joined by '/'. */
module Assembler {
  import opened Wrappers
  import opened GoStrings
  import opened Data
  import opened Fields
  import opened Ranker
  import opened References
  import opened Merger
  import opened Linker

  // ---------------------------------------------------------------------------
  // Paths
  // ---------------------------------------------------------------------------

  const Separator := '/'

  /** A cleaned path: whether it starts at the root, and its elements in order. */
  datatype FilePath = FilePath(absolute: bool, segments: seq<string>)

  /** A path to a file: at least one element, none empty, `.`, `..` or holding a separator. */
  predicate ValidPath(p: FilePath)
  {
    && |p.segments| >= 1
    && forall k :: 0 <= k < |p.segments| ==>
         p.segments[k] != "" && p.segments[k] != "." && p.segments[k] != ".." && Separator !in p.segments[k]
  }

  /** The path as text. */
  function PathString(p: FilePath): string
  {
    (if p.absolute then [Separator] else "") + Join(p.segments, Separator)
  }

  /** Reading a cleaned path back from its text. */
  function ParsePath(s: string): FilePath
  {
    if |s| > 0 && s[0] == Separator then FilePath(true, Split(s[1..], Separator))
    else FilePath(false, Split(s, Separator))
  }

  /** The text of a path determines the path. */
  lemma ParsePathString(p: FilePath)
    requires ValidPath(p)
    ensures ParsePath(PathString(p)) == p
  {
    var joined := Join(p.segments, Separator);
    SplitJoin(p.segments, Separator);
    if |p.segments| > 1 {
      assert joined == p.segments[0] + [Separator] + Join(p.segments[1..], Separator);
    }
    assert joined[0] == p.segments[0][0];
    if p.absolute {
      assert PathString(p)[1..] == joined;
    } else {
      assert PathString(p) == joined;
    }
  }

  /** `filepath.Dir` on a cleaned path: the path without its last element (the root, or
      `.`, once no element is left). */
  function DirOf(p: FilePath): FilePath
  {
    if |p.segments| == 0 then p else FilePath(p.absolute, p.segments[..|p.segments| - 1])
  }

  /** The file part of `filepath.Split` on a cleaned path: its last element; `.` has the
      element `.`, and the root has none. */
  function LastElement(p: FilePath): string
  {
    if |p.segments| > 0 then p.segments[|p.segments| - 1]
    else if p.absolute then ""
    else "."
  }

  /** `Filename`: the file part of the path. */
  function FilenameOf(p: FilePath): string
  {
    if |p.segments| > 0 then p.segments[|p.segments| - 1] else ""
  }

  /** `Key`: the last element of the directory two levels above the file's directory. */
  function KeyOf(p: FilePath): string
  {
    LastElement(DirOf(DirOf(p)))
  }

  /** The key is the element two before the file name: the folder that holds the project's
      own folder. Shorter paths give `.`, or nothing for a path under the root. */
  lemma KeyOfSegments(p: FilePath)
    ensures |p.segments| >= 3 ==> KeyOf(p) == p.segments[|p.segments| - 3]
    ensures |p.segments| < 3 ==> KeyOf(p) == if p.absolute then "" else "."
    ensures |p.segments| >= 1 ==> FilenameOf(p) == p.segments[|p.segments| - 1]
  {
  }

  /** Two project files in sibling folders of one parent share their key. */
  lemma KeyIgnoresProjectFolder(parents: seq<string>, folder1: string, file1: string, folder2: string, file2: string, absolute: bool)
    requires |parents| >= 1
    ensures KeyOf(FilePath(absolute, parents + [folder1, file1])) == KeyOf(FilePath(absolute, parents + [folder2, file2]))
    ensures KeyOf(FilePath(absolute, parents + [folder1, file1])) == parents[|parents| - 1]
  {
    KeyOfSegments(FilePath(absolute, parents + [folder1, file1]));
    KeyOfSegments(FilePath(absolute, parents + [folder2, file2]));
  }

  // ---------------------------------------------------------------------------
  // One project
  // ---------------------------------------------------------------------------

  /** What the outer patterns capture from one description: references, project references,
      and the two forms of file elements. */
  datatype ProjectScan = ProjectScan(
    references: ReferenceMatches,
    selfClosingFiles: seq<FileMatch>,
    blockFiles: seq<FileMatch>)

  /** The project record `Load` builds from a readable description; `packageMatches` are the
      records captured from the sibling `packages.config` (none when it is missing or
      unreadable). */
  function ProjectOf(path: FilePath, contents: string, scan: ProjectScan, packageMatches: seq<PackageMatch>): Project
    requires Loadable(scan.references)
  {
    var packages := PackagesOf(packageMatches);
    Project(
      key := KeyOf(path),
      fullPath := PathString(path),
      filename := FilenameOf(path),
      frameworkVersion := LoadTargetFramework(contents),
      rootNamespace := LoadRootNamespace(contents),
      assemblyName := "",
      references := MergeAll(ReferencesOf(scan.references), packages),
      projectRefs := ProjectReferencesOf(scan.references.projectRefs),
      files := FilesOf(scan.selfClosingFiles, scan.blockFiles),
      packages := packages,
      zip := "")
  }

  /** What a loaded project holds: its path fields come from the path alone, its references
      are the loaded ones with only versions merged in, its project references are not yet
      linked, and the fields the loader never sets are empty. */
  lemma ProjectOfFields(path: FilePath, contents: string, scan: ProjectScan, packageMatches: seq<PackageMatch>)
    requires Loadable(scan.references)
    requires ValidPath(path)
    ensures var p := ProjectOf(path, contents, scan, packageMatches);
      && ParsePath(p.fullPath) == path
      && p.filename == path.segments[|path.segments| - 1]
      && (|path.segments| >= 3 ==> p.key == path.segments[|path.segments| - 3])
      && |p.references| == |scan.references.rich| + |scan.references.bare| + |scan.references.packageRefs|
      && (forall k :: 0 <= k < |p.references| ==>
            p.references[k].(version := ReferencesOf(scan.references)[k].version) == ReferencesOf(scan.references)[k])
      && |p.projectRefs| == |scan.references.projectRefs|
      && (forall k :: 0 <= k < |p.projectRefs| ==> p.projectRefs[k].key == "" && p.projectRefs[k].rootNamespace == "")
      && |p.files| == |scan.selfClosingFiles| + |scan.blockFiles|
      && |p.packages| == |packageMatches|
      && p.assemblyName == "" && p.zip == ""
  {
    var p := ProjectOf(path, contents, scan, packageMatches);
    ParsePathString(path);
    KeyOfSegments(path);
    ReferencesLayout(scan.references);
    var refs := ReferencesOf(scan.references);
    forall k | 0 <= k < |p.references|
      ensures p.references[k].(version := refs[k].version) == refs[k]
    {
      MergedReferenceSpec(refs[k], p.packages);
    }
  }

  /** `Load`: a failed read is returned as is; otherwise the record is assembled from the
      scalar fields, the loaded references (with package versions merged in place), the
      files, the packages and the path. */
  method Load(path: FilePath, file: Result<string, string>, scan: ProjectScan, packageMatches: seq<PackageMatch>)
    returns (r: Result<Project, string>)
    requires file.Success? ==> Loadable(scan.references)
    ensures file.Failure? ==> r == Failure(file.error)
    ensures file.Success? ==> r == Success(ProjectOf(path, file.value, scan, packageMatches))
  {
    if file.Failure? {
      return Failure(file.error);
    }
    var contents := file.value;
    var targetFramework := LoadTargetFramework(contents);
    var loaded, projrefs := LoadReferences(scan.references);
    var files := LoadFiles(scan.selfClosingFiles, scan.blockFiles);
    var packages := LoadPackages(packageMatches);
    var references := new Reference[|loaded|](k requires 0 <= k < |loaded| => loaded[k]);
    assert references[..] == loaded;
    MapPackageToRefVersion(references, packages);
    var rootNamespace := LoadRootNamespace(contents);
    var proj := Project(
      key := KeyOf(path),
      fullPath := PathString(path),
      filename := FilenameOf(path),
      frameworkVersion := targetFramework,
      rootNamespace := rootNamespace,
      assemblyName := "",
      references := references[..],
      projectRefs := projrefs,
      files := files,
      packages := packages,
      zip := "");
    return Success(proj);
  }

  // ---------------------------------------------------------------------------
  // A batch
  // ---------------------------------------------------------------------------

  /** One project file found under the search root, with what reading it gives. */
  datatype ProjectSource = ProjectSource(
    path: FilePath,
    file: Result<string, string>,
    scan: ProjectScan,
    packageMatches: seq<PackageMatch>)

  /** How many sources, from the first, are readable: `LoadAll` loads these and then,
      if any source is left, the unreadable one that stops it. */
  function ReadablePrefix(sources: seq<ProjectSource>): (n: nat)
    ensures n <= |sources|
    ensures forall k :: 0 <= k < n ==> sources[k].file.Success?
    ensures n < |sources| ==> sources[n].file.Failure?
    decreases |sources|
  {
    if |sources| == 0 || sources[0].file.Failure? then 0
    else 1 + ReadablePrefix(sources[1..])
  }

  /** The number of sources `LoadAll` hands to `Load`. */
  function Attempted(sources: seq<ProjectSource>): (n: nat)
    ensures n <= |sources|
  {
    if ReadablePrefix(sources) < |sources| then ReadablePrefix(sources) + 1 else |sources|
  }

  /** Every source that `LoadAll` reads successfully can be loaded; sources after the
      first unreadable one are never loaded and need nothing. */
  predicate SourcesLoadable(sources: seq<ProjectSource>)
  {
    forall k :: 0 <= k < ReadablePrefix(sources) ==> Loadable(sources[k].scan.references)
  }

  /** What `Load` gives for one source. */
  function LoadResult(s: ProjectSource): Result<Project, string>
    requires s.file.Success? ==> Loadable(s.scan.references)
  {
    match s.file
    case Failure(e) => Failure(e)
    case Success(contents) => Success(ProjectOf(s.path, contents, s.scan, s.packageMatches))
  }

  /** A source `LoadAll` reaches is either loadable or unreadable. */
  lemma AttemptedLoadable(sources: seq<ProjectSource>, k: nat)
    requires SourcesLoadable(sources) && k < Attempted(sources)
    ensures sources[k].file.Success? ==> Loadable(sources[k].scan.references)
  {
    var n := ReadablePrefix(sources);
    if n <= k {
      assert k == n && sources[n].file.Failure?;
    }
  }

  /** `Load` applied to the sources `LoadAll` reaches, in discovery order. */
  function Loads(sources: seq<ProjectSource>): (rs: seq<Result<Project, string>>)
    requires SourcesLoadable(sources)
    ensures |rs| == Attempted(sources)
  {
    seq(Attempted(sources), k requires 0 <= k < Attempted(sources) && SourcesLoadable(sources) =>
      AttemptedLoadable(sources, k); LoadResult(sources[k]))
  }

  /** The loading loop of `LoadAll`: every value in order, or the first error. */
  function Collect<T>(rs: seq<Result<T, string>>): Result<seq<T>, string>
    decreases |rs|
  {
    if |rs| == 0 then Success([])
    else
      match Collect(rs[..|rs| - 1])
      case Failure(e) => Failure(e)
      case Success(vs) =>
        match rs[|rs| - 1]
        case Failure(e) => Failure(e)
        case Success(v) => Success(vs + [v])
  }

  /** `LoadAll` after discovery: load every project, then link the batch. */
  function LoadAllOf(sources: seq<ProjectSource>): Result<seq<Project>, string>
    requires SourcesLoadable(sources)
  {
    match Collect(Loads(sources))
    case Failure(e) => Failure(e)
    case Success(ps) => Link(ps)
  }

  /** Collecting succeeds iff every result is a value, and then keeps them all in order. */
  lemma {:induction false} CollectSuccess<T>(rs: seq<Result<T, string>>)
    ensures Collect(rs).Success? <==> forall k :: 0 <= k < |rs| ==> rs[k].Success?
    ensures Collect(rs).Success? ==>
              |Collect(rs).value| == |rs| &&
              forall k :: 0 <= k < |rs| ==> rs[k] == Success(Collect(rs).value[k])
    decreases |rs|
  {
    if |rs| > 0 {
      var n := |rs| - 1;
      var init := rs[..n];
      assert forall k :: 0 <= k < n ==> init[k] == rs[k];
      CollectSuccess(init);
    }
  }

  /** A failed collection reports the first error. */
  lemma {:induction false} CollectFailure<T>(rs: seq<Result<T, string>>)
    requires Collect(rs).Failure?
    ensures exists k :: && 0 <= k < |rs| && rs[k].Failure?
                        && (forall k' :: 0 <= k' < k ==> rs[k'].Success?)
                        && Collect(rs).error == rs[k].error
    decreases |rs|
  {
    var n := |rs| - 1;
    var init := rs[..n];
    assert forall k :: 0 <= k < n ==> init[k] == rs[k];
    if Collect(init).Failure? {
      CollectFailure(init);
      var k :| && 0 <= k < |init| && init[k].Failure?
               && (forall k' :: 0 <= k' < k ==> init[k'].Success?)
               && Collect(init).error == init[k].error;
      assert rs[k].Failure?;
    } else {
      CollectSuccess(init);
    }
  }

  /** An error among the first `i + 1` results is the outcome of the whole collection. */
  lemma {:induction false} CollectFailurePersists<T>(rs: seq<Result<T, string>>, i: nat)
    requires i < |rs|
    requires Collect(rs[..i + 1]).Failure?
    ensures Collect(rs) == Collect(rs[..i + 1])
    decreases |rs| - i
  {
    if i + 1 < |rs| {
      assert rs[..|rs| - 1][..i + 1] == rs[..i + 1];
      CollectFailurePersists(rs[..|rs| - 1], i);
    } else {
      assert rs[..i + 1] == rs;
    }
  }

  /** The result for each source reached is a value exactly when the file was read, and
      otherwise carries the read error. */
  lemma LoadsReadable(sources: seq<ProjectSource>)
    requires SourcesLoadable(sources)
    ensures forall k :: 0 <= k < |Loads(sources)| ==>
              (Loads(sources)[k].Success? <==> sources[k].file.Success?)
    ensures forall k :: 0 <= k < |Loads(sources)| && sources[k].file.Failure? ==>
              Loads(sources)[k] == Failure(sources[k].file.error)
  {
  }

  /** Loading succeeds iff every file is readable. */
  lemma LoadingSucceedsIff(sources: seq<ProjectSource>)
    requires SourcesLoadable(sources)
    ensures Collect(Loads(sources)).Success? <==> forall k :: 0 <= k < |sources| ==> sources[k].file.Success?
  {
    var rs := Loads(sources);
    LoadsReadable(sources);
    CollectSuccess(rs);
    if ReadablePrefix(sources) < |sources| {
      assert rs[ReadablePrefix(sources)].Failure?;
    }
  }

  /** A successful load gives one project per file, in discovery order. */
  lemma LoadingSuccessShape(sources: seq<ProjectSource>)
    requires SourcesLoadable(sources)
    requires Collect(Loads(sources)).Success?
    ensures forall k :: 0 <= k < |sources| ==> sources[k].file.Success?
    ensures var ps := Collect(Loads(sources)).value;
              |ps| == |sources| &&
              forall k :: 0 <= k < |sources| ==>
                Loadable(sources[k].scan.references) &&
                ps[k] == ProjectOf(sources[k].path, sources[k].file.value, sources[k].scan, sources[k].packageMatches)
  {
    var rs := Loads(sources);
    LoadingSucceedsIff(sources);
    CollectSuccess(rs);
    assert ReadablePrefix(sources) == |sources|;
  }

  /** A failed load reports the read error of the first unreadable file. */
  lemma LoadingFailure(sources: seq<ProjectSource>)
    requires SourcesLoadable(sources)
    requires Collect(Loads(sources)).Failure?
    ensures exists k :: && 0 <= k < |sources| && sources[k].file.Failure?
                        && (forall k' :: 0 <= k' < k ==> sources[k'].file.Success?)
                        && Collect(Loads(sources)).error == sources[k].file.error
  {
    var rs := Loads(sources);
    LoadsReadable(sources);
    CollectFailure(rs);
  }

  /** Loading a batch succeeds iff every file is readable, and then gives one project per
      file in discovery order; otherwise it reports the read error of the first unreadable
      file. */
  lemma LoadingSpec(sources: seq<ProjectSource>)
    requires SourcesLoadable(sources)
    ensures Collect(Loads(sources)).Success? <==> forall k :: 0 <= k < |sources| ==> sources[k].file.Success?
    ensures Collect(Loads(sources)).Success? ==>
              var ps := Collect(Loads(sources)).value;
              |ps| == |sources| &&
              forall k :: 0 <= k < |sources| ==>
                sources[k].file.Success? && Loadable(sources[k].scan.references) &&
                ps[k] == ProjectOf(sources[k].path, sources[k].file.value, sources[k].scan, sources[k].packageMatches)
    ensures Collect(Loads(sources)).Failure? ==>
              exists k :: && 0 <= k < |sources| && sources[k].file.Failure?
                          && (forall k' :: 0 <= k' < k ==> sources[k'].file.Success?)
                          && Collect(Loads(sources)).error == sources[k].file.error
  {
    LoadingSucceedsIff(sources);
    if Collect(Loads(sources)).Success? {
      LoadingSuccessShape(sources);
    } else {
      LoadingFailure(sources);
    }
  }

  /** An unreadable first file decides the batch, whatever the later files hold: they are
      never loaded, so nothing is asked of them. */
  lemma FirstReadErrorWins(sources: seq<ProjectSource>)
    requires |sources| > 0 && sources[0].file.Failure?
    ensures SourcesLoadable(sources)
    ensures LoadAllOf(sources) == Failure(sources[0].file.error)
  {
    assert ReadablePrefix(sources) == 0;
    var rs := Loads(sources);
    assert |rs| == 1 && rs[0] == Failure(sources[0].file.error);
    assert rs[..|rs| - 1] == [];
    assert Collect(rs) == Failure(sources[0].file.error);
  }

  /** A batch whose files all load fails only in linking, and then names a namespace no
      project of the batch declares. */
  lemma LoadAllFailsOnlyOnUnresolved(sources: seq<ProjectSource>)
    requires SourcesLoadable(sources)
    requires Collect(Loads(sources)).Success?
    requires LoadAllOf(sources).Failure?
    ensures var ps := Collect(Loads(sources)).value;
      exists i, j :: && 0 <= i < |ps| && 0 <= j < |ps[i].projectRefs|
                     && !Declared(ps, ps[i].projectRefs[j].name)
                     && LoadAllOf(sources).error == UnresolvedMessage(ps[i].projectRefs[j].name)
  {
    var ps := Collect(Loads(sources)).value;
    LinkFailureNamesFirst(ps);
    var i, j :| FirstUnbound(ps, NamespaceIndex(ps), i, j) &&
                Link(ps).error == UnresolvedMessage(ps[i].projectRefs[j].name);
    assert !Declared(ps, ps[i].projectRefs[j].name);
  }

  /** `LoadAll`: load in order, stop at the first read error, then link. */
  method LoadAll(sources: seq<ProjectSource>) returns (r: Result<seq<Project>, string>)
    requires SourcesLoadable(sources)
    ensures r == LoadAllOf(sources)
  {
    ghost var rs := Loads(sources);
    ghost var n := ReadablePrefix(sources);
    var projects := [];
    for i := 0 to |sources|
      invariant i <= n
      invariant Collect(rs[..i]) == Success(projects)
    {
      var s := sources[i];
      assert i < Attempted(sources);
      AttemptedLoadable(sources, i);
      assert rs[..i + 1][..i] == rs[..i];
      var p := Load(s.path, s.file, s.scan, s.packageMatches);
      assert p == rs[i] == LoadResult(s);
      if p.Failure? {
        CollectFailurePersists(rs, i);
        return Failure(p.error);
      }
      assert i < n by {
        assert s.file.Success?;
      }
      projects := projects + [p.value];
    }
    assert rs[..|sources|] == rs;
    r := MapProjectReferences(projects);
  }
}
