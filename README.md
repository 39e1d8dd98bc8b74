# csproj loader, modelled in Dafny

This project models the loading and linking engine of the `csproj` Go package. The engine
reads legacy .NET project description files (`*.csproj`) and builds a graph of `Project`
records. It covers:

- the scalar fields (`<RootNamespace>`, `<TargetFrameworkVersion>`);
- the three kinds of assembly reference;
- the `packages.config` records and their integer version rank;
- the version merge from packages into hint-path references;
- the project key derived from the file path;
- the batch load, followed by the linking pass that turns project references by namespace into project keys;
- the two editing helpers on a `*Project` (`AddFile`, `GetFileMap`).

Each Go loop that updates state step by step is a Dafny method, proved equal to a
specification function. The properties are stated as lemmas about those functions:

- `VersionRank` with its `cv`/`m` accumulators;
- the reference, file and package loops;
- the package-name accumulation;
- `mapPackageToRefVersion`, which works in place on an array;
- the nested loops of `MapProjectReferences`;
- `LoadAll`;
- `GetFileMap`.

`AddFile` is a method on a class whose `project` field the method replaces, as the Go
pointer receiver does.

Modules, one per file:

- `Wrappers`: `Option`, `Result`.
- `Data`: the records of `data.go`.
- `GoStrings`: `strings.Split`/`Join`, `strconv.ParseInt`/`Atoi` and ASCII lower-casing.
- `Pattern`: first-match semantics of the tag patterns, lazy `open(.*?)close` and greedy `.*?open(.*)close.*?`.
- `Fields`: `loadRootNS`, `loadTargetFramework`.
- `Ranker`: the rank loop and `loadPackages`.
- `References`: `loadReferences`, `loadFiles`.
- `Merger`: `mapPackageToRefVersion`.
- `Linker`: `MapProjectReferences`.
- `Assembler`: key derivation, `Load`, `LoadAll`.
- `Modify`: `AddFile`, `GetFileMap`.

Where the code differs from its own comments, the model follows the code:

- **Version merge guard.** `loader.go:115-117` skips references whose version is *empty*, although the comment `// has a version already` on line 117 describes the opposite test. As written, only references that already carry a version, and have a hint, are overwritten with the package's version. A hint-path reference without a version stays without one (`Merger.MergeFillsOnlyExistingVersions`).
- **Rank weights.** The comment at `loader.go:148-149` names other weights. The code weighs each kept segment by 100 per position from the right. As a result `"1.2"` and `"0.1.2"` both rank 102.

Two further behaviours are easy to misread:

- **Package name.** Every dot-segment of the package folder that `Atoi` accepts is dropped, wherever it stands, not only the trailing version number.
- **Project key.** The key is the folder above the project's own folder, i.e. the path element two before the file name.

## Model

| member | source | states |
|---|---|---|
| Fields.LoadRootNamespace | loader.go:185-192 | "" when no `<rootnamespace>` is followed by a `</rootnamespace>` (any case); otherwise the text of the first such match, up to the nearest closing tag |
| Fields.LoadTargetFramework | loader.go:175-182 | "" when there is no match; otherwise the text after the literal `v` of the first `<targetframeworkversion>v` up to the nearest closing tag |
| Fields.RootNamespaceOfLeadingElement | loader.go:14 | a description opening with a root-namespace element whose tags are written in any ASCII case (`<RootNamespace>…</RootNamespace>` included) yields the element's text, whatever follows |
| Fields.ProjectFileExample | loader.go:14-15 | `<RootNamespace>Acme.Web</RootNamespace>` yields `Acme.Web` and `<TargetFrameworkVersion>v4.5</TargetFrameworkVersion>` yields `4.5`, with the capitalised tags of a real project file |
| Fields.FrameworkOfLeadingElement | loader.go:15 | a description opening with a target-framework element whose tags are written in any ASCII case (`<TargetFrameworkVersion>v…</TargetFrameworkVersion>` included) yields the text after the `v`, whatever follows |
| Pattern.FindFirst | loader.go:14-15 | the result is an occurrence (ignoring ASCII case) at or after the start, and no occurrence lies before it; None iff there is none |
| Pattern.FindLastBelow | loader.go:20 | the result is the last occurrence in the range; None iff there is none |
| Pattern.LazyCaptureIsFirstMatch | loader.go:14-15 | the lazy capture is absent iff no open tag is followed by a close tag; otherwise a first match exists and the capture is its body: from the leftmost open tag that has a match to the nearest close tag after it |
| Pattern.GreedyCaptureIsFirstMatch | loader.go:20-22 | the `<HintPath>`/`<Private>` capture is absent iff there is no match; otherwise a first match exists and the capture runs from the leftmost matchable open tag to the LAST close tag after it |
| Pattern.LazyCaptureOfTaggedBody | loader.go:21 | in `lead + open + body + close + rest`, with the tags written in any ASCII case and no close tag able to start inside the body, the lazy capture from the end of the lead is exactly the body |
| GoStrings.Split | loader.go:150 | at least one piece, and no piece holds the separator |
| GoStrings.JoinSplit | loader.go:224 | joining the pieces of a split restores the string |
| GoStrings.SplitJoin | loader.go:224 | splitting a join of separator-free pieces restores the pieces |
| GoStrings.SplitConcat | loader.go:150-153 | the pieces of `a + "." + b` are the pieces of `a` followed by those of `b` |
| GoStrings.SplitHead | loader.go:236 | `Split(s, ",")[0]` is the longest comma-free prefix of `s`, followed by a comma or the end |
| GoStrings.ParseInt64 | loader.go:161 | success only for an optional sign followed by at least one digit, with a value inside int64 that is the text's decimal value; every such in-range text succeeds |
| GoStrings.ParseFormat | loader.go:226 | every int64 written in decimal parses back to itself |
| Ranker.SegmentValue | loader.go:157-161 | a segment cut to two characters is worth -9..99, and 0 when it does not parse |
| Ranker.SegmentValues | loader.go:150-153 | one to three kept segments, each worth -9..99 |
| Ranker.VersionRank | loader.go:150-164 | the right-to-left loop with running weight `m` computes the rank Σ vals[j]·100^(n-1-j) |
| Ranker.RankRange | loader.go:146-166 | every final rank lies in -90909..999999 |
| Ranker.AccumulatorsFit | loader.go:154-164 | the running weight `m` is at most 100^3 and every partial sum `cv` of the loop lies strictly between -100^3 and 100^3, so neither can overflow int64 |
| Ranker.PartialSumBound | loader.go:154-164 | the partial sum over the last d kept segments lies strictly between -100^d and 100^d |
| Ranker.RankOrderIsLexicographic | loader.go:150-164 | for versions with as many kept segments, each worth 0..99, a lower rank iff a lexicographically earlier segment sequence |
| Ranker.RankIgnoresLaterSegments | loader.go:151-153 | appending `"." + more` to a three-segment version leaves its rank unchanged |
| Ranker.RankIgnoresLaterCharacters | loader.go:158-160 | characters after the second of any of the first three segments do not count: `1.234.0` ranks as `1.23.0`, `10.0.12345` as `10.0.12` |
| Ranker.WeightedExpanded | loader.go:154-164 | the rank written out: v0, v0·100+v1, or v0·10000+v1·100+v2 |
| Ranker.DigitSegment | loader.go:161 | a one-digit segment is worth its digit |
| Ranker.SegmentsOfJoin | loader.go:150-153 | the kept segments of a dot-join are its first three pieces |
| Ranker.TwoDigitRank | loader.go:154-164 | two single-digit segments a.b rank a·100+b |
| Ranker.ThreeDigitRank | loader.go:154-164 | three single-digit segments a.b.c rank a·10000+b·100+c |
| Ranker.RankDependsOnSegmentCount | loader.go:154-164 | `"1.2"` and `"0.1.2"` both rank 102 |
| Ranker.RankExampleFourSegments | loader.go:151-153 | `"1.2.3.4"` and `"1.2.3"` both rank 10203 |
| Ranker.RankExampleLater | loader.go:150-164 | `"2.1.0"` outranks `"1.9.9"` |
| Ranker.LoadPackages | loader.go:141-170 | one package per record, in order, with id, version and framework copied, the development flag set only by the exact text "true", and the rank as `versionVal` |
| References.NonNumericSnoc | loader.go:225-230 | one more segment is kept iff `Atoi` rejects it |
| References.NonNumericLength | loader.go:225-230 | the kept segments are no more than the segments |
| References.NonNumericKept | loader.go:225-230 | every kept segment is a segment of the folder name and is rejected by `Atoi` |
| References.NonNumericKeepsAll | loader.go:225-230 | a folder name without numeric segments keeps them all |
| References.AccumulateStep | loader.go:225-230 | one iteration appends `pt + "."` exactly when `Atoi` rejects `pt` |
| References.DottedIsJoinPlusDot | loader.go:228-232 | the accumulated text is the dot-join of the kept segments plus one trailing dot, which the final slice removes |
| References.DerivePackageName | loader.go:223-232 | the loop yields the kept segments joined by dots |
| References.PackageNameSegments | loader.go:219-234 | the dot-segments of the derived name are exactly the folder's non-numeric segments, in order, wherever the numeric ones stood |
| References.SegmentKinds | loader.go:226 | `Atoi` accepts "12", "0" and "3" and rejects "Newtonsoft" and "Json" |
| References.NonNumericExample | loader.go:225-230 | the filter turns Newtonsoft, Json, 12, 0, 3 into Newtonsoft, Json |
| References.PackageNameExample | loader.go:224-232 | the folder `Newtonsoft.Json.12.0.3` names the package `Newtonsoft.Json` |
| References.PackageNameOfCacheHint | loader.go:217-224 | a hint `<lead>\packages\<folder>\…`, whose lead has at least two characters and no earlier `\packages\` from its third character on, is a package hint whose name is derived from `<folder>` |
| References.PackageNameOfNestedCacheHint | loader.go:217-224 | the nested layout `..\..\packages\<folder>\…` names the package of `<folder>` |
| References.RichReferenceFields | loader.go:200-237 | name = include text before the first comma; fullRef = include text; hint = greedy `<HintPath>` capture or ""; isPackage iff hint contains `\packages\`; hasPrivate iff a `<Private>` match exists; isPrivate iff its text lower-cases to "true"; a package name only for package hints; no version |
| References.ReferencesLayout | loader.go:199-257 | rich, then bare, then package references, no de-duplication; bare ones have no hint, version or private flag and are not packages; package references are packages with the version verbatim |
| References.BuildRichReference | loader.go:200-237 | one iteration of the rich-reference loop builds the record of `RichReferenceFields` |
| References.AppendRichReferences | loader.go:199-240 | the loop appends the rich references in match order |
| References.AppendBareReferences | loader.go:243-248 | the loop appends the bare references in match order |
| References.AppendPackageReferences | loader.go:251-257 | the loop appends the package references in match order |
| References.LoadReferences | loader.go:194-269 | the references are those of `ReferencesLayout`; the project references carry path and name, with key and root namespace unset |
| References.LoadFiles | loader.go:271-293 | self-closing matches first, then block matches, with path and kind exactly as captured and no subtype |
| Merger.PackageIndexDomain | loader.go:107-110 | an id is in `pmap` iff some package has it |
| Merger.PackageIndexLastWins | loader.go:107-110 | each id maps to the last package with that id |
| Merger.MergedReferenceSpec | loader.go:114-125 | only the version can change; references without a version or without a hint, or whose name is no package id, are unchanged; otherwise the version becomes that of the last package with that name |
| Merger.MapPackageToRefVersion | loader.go:106-126 | the array, updated in place, holds the merge of every reference; length and order are kept |
| Merger.MergeFillsOnlyExistingVersions | loader.go:115-124 | with a matching package, an empty version stays empty and a non-empty one is overwritten |
| Linker.NamespaceIndexDomain | loader.go:85-89 | a namespace is in `keymap` iff some project declares it |
| Linker.NamespaceIndexLastWins | loader.go:87-89 | each namespace maps to the key of the last project declaring it |
| Linker.ResolveRefsSucceedsIff | loader.go:92-98 | one project's references resolve iff every name is in the index |
| Linker.ResolveRefsShape | loader.go:92-98 | on success each reference gets the key of its name, and nothing else changes |
| Linker.ResolveRefsFailure | loader.go:95-97 | on failure the error names the first name missing from the index |
| Linker.LinkWithSucceedsIff | loader.go:91-101 | the pass over all projects succeeds iff every reference of every project is in the index |
| Linker.LinkWithShape | loader.go:91-101 | on success, projects keep their order and other fields, and every reference gets its indexed key |
| Linker.LinkWithFailure | loader.go:91-101 | on failure the error names the first missing reference in project order, then reference order |
| Linker.LinkSucceedsIff | loader.go:83-104 | linking succeeds iff every project reference names a namespace some project of the batch declares |
| Linker.LinkSuccessShape | loader.go:83-104 | on success: same length and order, only reference keys change, and each key is that of the last project declaring the namespace |
| Linker.LinkFailureNamesFirst | loader.go:91-97 | on failure the message names the first reference, in project then reference order, whose namespace no project declares |
| Linker.BuildNamespaceIndex | loader.go:85-89 | the first loop builds the namespace index |
| Linker.ResolveInPlace | loader.go:92-98 | the inner loop writes the keys, or stops at the first miss with its message |
| Linker.MapProjectReferences | loader.go:83-104 | the two-phase pass returns exactly the linking result |
| Assembler.ParsePathString | loader.go:54 | `FullPath`, the path text, determines the path |
| Assembler.KeyOfSegments | loader.go:49-52 | the key is the element two before the file name (".", or "" under the root, for shorter paths); the file name is the last element |
| Assembler.KeyIgnoresProjectFolder | loader.go:52 | project files in sibling folders of one parent share that parent's name as key |
| Assembler.ProjectOfFields | loader.go:37-57 | path fields come from the path; references are the loaded ones with only versions merged; project references are unlinked; assemblyName and zip are empty |
| Assembler.Load | loader.go:37-57 | a read error is returned as is; otherwise the record of `ProjectOf`; only a readable file must be loadable |
| Assembler.CollectSuccess | loader.go:66-73 | the loading loop succeeds iff every load succeeds, keeping all projects in order |
| Assembler.CollectFailure | loader.go:67-70 | a failed loading loop reports the first error |
| Assembler.LoadingSpec | loader.go:66-73 | loading succeeds iff every file is readable, giving one project per file in discovery order; otherwise the first read error. Only the files read before the first unreadable one must be loadable |
| Assembler.LoadingSucceedsIff | loader.go:66-73 | loading succeeds iff every file is readable |
| Assembler.LoadingSuccessShape | loader.go:66-73 | a successful load gives one project per file, in discovery order |
| Assembler.LoadingFailure | loader.go:67-70 | a failed load reports the read error of the first unreadable file |
| Assembler.FirstReadErrorWins | loader.go:67-70 | an unreadable first file makes `LoadAll` return its read error, whatever the later files hold |
| Assembler.LoadsReadable | loader.go:66-70 | each file reached gives a project exactly when it was read, and otherwise its read error |
| Assembler.LoadAllFailsOnlyOnUnresolved | loader.go:75-78 | once every file has loaded, `LoadAll` fails only by naming a namespace no project declares |
| Assembler.LoadAll | loader.go:59-81 | load in order, stop at the first read error without loading the later files, then link |
| Modify.PathSetSnoc | modify.go:10-12 | a file adds exactly its path to the key set |
| Modify.DistinctPathsSnoc | modify.go:8-14 | appending keeps paths distinct iff the new path is new |
| Modify.PathSetSize | modify.go:8-14 | the map has at most one key per file, and exactly one iff no two files share a path |
| Modify.ProjectHandle.AddFile | modify.go:3-6 | the project afterwards is the old one with exactly `File{path, t, subtype}` appended; no other field changes |
| Modify.ProjectHandle.GetFileMap | modify.go:8-14 | the keys are exactly the file paths, every value is true, and the project is not modified |
| Modify.AddFileEffect | modify.go:3-6 | adding a file grows the list by one even when its path is already present, and the file map gains only that path |

## Left out

- File reading and discovery are left out: `ioutil.ReadFile` in `Load` and `GetRootNamespace` (loader.go:27-41), the `os.Stat`/`ReadFile` of `packages.config` (loader.go:130-138), and `Find` in finder.go. A read arrives as a `Result`, and a missing or unreadable `packages.config` arrives as an empty list of records. `GetRootNamespace` is that read followed by `Fields.LoadRootNamespace`.
- The outer regular expressions (`prefreg`, `arefreg`, `pkgrefreg`, `projrefreg`, `creg`, `c2reg`, `pkgreg`, loader.go:16-25) are not modelled. Their captured groups are inputs (`ReferenceMatches`, `FileMatch`, `PackageMatch`). The tag patterns are modelled: `nsreg` and `frmwkreg` run on the whole project description, `hpreg` and `privreg` on a rich reference's captured body, and `pkgnamereg` on its hint. Consequently the `projrefreg` quirk, where greedy `.*` pairs the path of the first `<ProjectReference>` with the `<Name>` of the last, is not derived here.
- Pattern.MatchesAt: case-insensitivity is ASCII only. The Unicode simple folding of `(?i)` (for example the Kelvin sign matching `k`) is not modelled.
- Characters stand for bytes. UTF-8 decoding is not modelled.
- Assembler.KeyOf: paths are already-cleaned segment sequences joined by '/'. `filepath` cleaning of `.`, `..` and repeated separators, Windows separators and volume names are not modelled.
- Linker.MapProjectReferences: in Go, `p.ProjectRefs` shares its backing array with the caller's slice, so the caller's references receive their keys too, even when the call fails part-way. Projects here are values, so that sharing is not captured.
- References.DerivePackageName: the Go code panics when every segment of the cache folder name is numeric (`pkgname[0:len-1]` on an empty string). This is a precondition (`Loadable`) rather than a modelled panic. It is asked only of the files `LoadAll` actually loads: those before the first unreadable one.
- GoStrings.ParseInt64: on a range error `strconv.ParseInt` also returns a clamped value, which `loader.go:161` would use. A segment of at most two characters can never be out of range, so only the error is modelled.
- `Zip`, `AssemblyName`, `IsPackageReference` and `ProjectReference.RootNamespace` are never set by the loader. They stay empty or false in the model.
