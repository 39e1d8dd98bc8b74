/** `loadReferences` and `loadFiles`: the records built from the groups the reference and
    file patterns capture. The matching of the outer patterns is outside the model: each
    list of captures arrives in match order. Inside a rich reference's body the hint-path,
    private and packages-folder patterns are modelled (see `Pattern`). */
module References {
  import opened Wrappers
  import opened GoStrings
  import opened Pattern
  import opened Data

  const HintOpen := "<hintpath>"
  const HintClose := "</hintpath>"
  const PrivateOpen := "<private>"
  const PrivateClose := "</private>"
  /** The package-cache marker, `\packages\`. */
  const PackagesMarker := "\\packages\\"
  const Backslash := "\\"

  /** The two groups of a rich `<Reference Include="…">…</Reference>` match. */
  datatype RichMatch = RichMatch(includeValue: string, body: string)
  /** The two groups of a `<PackageReference Include="…">…<Version>…</Version>…` match. */
  datatype PackageRefMatch = PackageRefMatch(includeValue: string, version: string)
  /** The two groups of a `<ProjectReference Include="…">…<Name>…</Name>…` match. Because
      that pattern uses a greedy `.*` on both sides of `<Name>`, a description with several
      project references yields one match: the path of the first and the name of the last. */
  datatype ProjectRefMatch = ProjectRefMatch(path: string, name: string)
  /** The build-action keyword and the path of a `<Compile|Content|None Include="…">` match. */
  datatype FileMatch = FileMatch(kind: string, path: string)

  /** The captures of the four reference patterns over one description, each in match order:
      rich references, bare self-closing references (their `Include` only), package
      references and project references. */
  datatype ReferenceMatches = ReferenceMatches(
    rich: seq<RichMatch>,
    bare: seq<string>,
    packageRefs: seq<PackageRefMatch>,
    projectRefs: seq<ProjectRefMatch>)

  // ---------------------------------------------------------------------------
  // Derived pieces of a rich reference
  // ---------------------------------------------------------------------------

  /** The hint path: from the first `<HintPath>` to the last `</HintPath>`, "" when absent. */
  function HintOf(body: string): string
  {
    GreedyCapture(body, HintOpen, HintClose, 0).GetOr("")
  }

  /** The text of the `<Private>` element, when the body has one. */
  function PrivateOf(body: string): Option<string>
  {
    GreedyCapture(body, PrivateOpen, PrivateClose, 0)
  }

  /** A hint under a package cache, by a case-sensitive search for `\packages\`. */
  predicate IsPackageHint(hint: string)
  {
    Contains(hint, PackagesMarker)
  }

  /** The folder right below the package cache: the packages-folder pattern needs two
      characters before `\packages\` (matched without regard to case) and a `\` after the
      folder name. */
  function PackageFolder(hint: string): Option<string>
  {
    LazyCapture(hint, PackagesMarker, Backslash, 2)
  }

  /** A segment that `strconv.Atoi` accepts. */
  predicate IsNumeric(pt: string)
  {
    ParseInt64(pt).Some?
  }

  /** The segments `strconv.Atoi` rejects, in their original order. */
  function NonNumeric(parts: seq<string>): seq<string>
    decreases |parts|
  {
    if |parts| == 0 then []
    else
      var last := parts[|parts| - 1];
      NonNumeric(parts[..|parts| - 1]) + (if IsNumeric(last) then [] else [last])
  }

  /** The filter on one more segment. */
  lemma NonNumericSnoc(parts: seq<string>, x: string)
    ensures NonNumeric(parts + [x]) == NonNumeric(parts) + (if IsNumeric(x) then [] else [x])
  {
    assert (parts + [x])[..|parts|] == parts;
  }

  /** The filter keeps at most every segment. */
  lemma {:induction false} NonNumericLength(parts: seq<string>)
    ensures |NonNumeric(parts)| <= |parts|
    decreases |parts|
  {
    if |parts| > 0 {
      NonNumericLength(parts[..|parts| - 1]);
    }
  }

  /** What the filter keeps is non-numeric and comes from the input. */
  lemma {:induction false} NonNumericKept(parts: seq<string>)
    ensures forall k :: 0 <= k < |NonNumeric(parts)| ==>
              NonNumeric(parts)[k] in parts && !IsNumeric(NonNumeric(parts)[k])
    decreases |parts|
  {
    if |parts| > 0 {
      var n := |parts| - 1;
      var init := parts[..n];
      NonNumericKept(init);
      var kept := NonNumeric(init);
      assert NonNumeric(parts) == kept + (if IsNumeric(parts[n]) then [] else [parts[n]]) by {
        assert init + [parts[n]] == parts;
        NonNumericSnoc(init, parts[n]);
      }
      forall k | 0 <= k < |kept| ensures kept[k] in parts {
        var m :| 0 <= m < |init| && init[m] == kept[k];
        assert parts[m] == kept[k];
      }
    }
  }

  /** When no segment is numeric the filter keeps everything. */
  lemma {:induction false} NonNumericKeepsAll(parts: seq<string>)
    requires forall k :: 0 <= k < |parts| ==> !IsNumeric(parts[k])
    ensures NonNumeric(parts) == parts
    decreases |parts|
  {
    if |parts| > 0 {
      var init := parts[..|parts| - 1];
      assert forall k :: 0 <= k < |init| ==> init[k] == parts[k];
      NonNumericKeepsAll(init);
      assert init + [parts[|parts| - 1]] == parts;
      NonNumericKeepsLast(init, parts[|parts| - 1]);
    }
  }

  /** The step of `NonNumericKeepsAll`: a kept prefix and a non-numeric last segment. */
  lemma NonNumericKeepsLast(init: seq<string>, x: string)
    requires !IsNumeric(x) && NonNumeric(init) == init
    ensures NonNumeric(init + [x]) == init + [x]
  {
    NonNumericSnoc(init, x);
  }

  /** The package name a cache folder name stands for: its non-numeric dot-segments
      joined by dots. */
  function PackageNameFromFolder(folder: string): string
  {
    Join(NonNumeric(Split(folder, '.')), '.')
  }

  /** The derivation of a package name does not fail: the loader slices off the last
      character of the accumulated name, which panics when every segment is numeric. */
  predicate PackageNameDefined(hint: string)
  {
    IsPackageHint(hint) && PackageFolder(hint).Some? ==>
      NonNumeric(Split(PackageFolder(hint).value, '.')) != []
  }

  predicate RichMatchLoadable(m: RichMatch)
  {
    PackageNameDefined(HintOf(m.body))
  }

  /** The dot-terminated accumulation the loader builds: `p0 + "." + p1 + "." + …`. */
  function Dotted(parts: seq<string>): string
    decreases |parts|
  {
    if |parts| == 0 then "" else Dotted(parts[..|parts| - 1]) + parts[|parts| - 1] + "."
  }

  lemma {:induction false} JoinSnoc(parts: seq<string>, x: string, sep: char)
    requires |parts| >= 1
    ensures Join(parts + [x], sep) == Join(parts, sep) + [sep] + x
    decreases |parts|
  {
    if |parts| == 1 {
      assert (parts + [x])[1..] == [x];
    } else {
      assert (parts + [x])[1..] == parts[1..] + [x];
      JoinSnoc(parts[1..], x, sep);
    }
  }

  /** One step of the accumulation: a numeric segment leaves it as it is, any other
      segment is appended with a dot. */
  lemma AccumulateStep(parts: seq<string>, x: string)
    ensures Dotted(NonNumeric(parts + [x])) ==
      if IsNumeric(x) then Dotted(NonNumeric(parts)) else Dotted(NonNumeric(parts)) + x + "."
  {
    assert (parts + [x])[..|parts|] == parts;
    var kept := NonNumeric(parts);
    if !IsNumeric(x) {
      assert NonNumeric(parts + [x]) == kept + [x];
      assert (kept + [x])[..|kept|] == kept;
      assert Dotted(kept + [x]) == Dotted(kept) + x + ".";
    } else {
      assert NonNumeric(parts + [x]) == kept;
    }
  }

  /** The accumulation is the join with one extra trailing dot. */
  lemma {:induction false} DottedIsJoinPlusDot(parts: seq<string>)
    requires |parts| >= 1
    ensures Dotted(parts) == Join(parts, '.') + "."
    decreases |parts|
  {
    var init := parts[..|parts| - 1];
    if |parts| > 1 {
      DottedIsJoinPlusDot(init);
      JoinSnoc(init, parts[|parts| - 1], '.');
      assert init + [parts[|parts| - 1]] == parts;
    }
  }

  /** The name-building loop of `loadReferences`: every segment `Atoi` rejects is appended
      with a trailing dot, and the last dot is cut off. */
  method DerivePackageName(folder: string) returns (pkgname: string)
    requires NonNumeric(Split(folder, '.')) != []
    ensures pkgname == PackageNameFromFolder(folder)
  {
    var npts := Split(folder, '.');
    pkgname := "";
    for i := 0 to |npts|
      invariant pkgname == Dotted(NonNumeric(npts[..i]))
    {
      var pt := npts[i];
      assert npts[..i + 1] == npts[..i] + [pt];
      AccumulateStep(npts[..i], pt);
      if ParseInt64(pt).None? {
        pkgname := pkgname + pt + ".";
      }
    }
    ghost var joined := Join(NonNumeric(npts), '.');
    assert pkgname == joined + "." by {
      assert npts[..|npts|] == npts;
      DottedIsJoinPlusDot(NonNumeric(npts));
    }
    pkgname := pkgname[0..|pkgname| - 1];
    assert pkgname == joined;
  }

  /** The derived name consists exactly of the folder's non-numeric dot-segments, in order:
      numeric segments anywhere are dropped, not only trailing version numbers. */
  lemma PackageNameSegments(folder: string)
    requires NonNumeric(Split(folder, '.')) != []
    ensures Split(PackageNameFromFolder(folder), '.') == NonNumeric(Split(folder, '.'))
  {
    NonNumericKept(Split(folder, '.'));
    SplitJoin(NonNumeric(Split(folder, '.')), '.');
  }

  /** Which segments of the worked value below `Atoi` accepts. */
  lemma SegmentKinds()
    ensures IsNumeric("12") && IsNumeric("0") && IsNumeric("3")
    ensures !IsNumeric("Newtonsoft") && !IsNumeric("Json")
  {
    assert "3"[..0] == "" && "0"[..0] == "";
    assert "12"[..1] == "1" && "1"[..0] == "";
  }

  /** The filter on the segments of the worked value below. */
  lemma NonNumericExample()
    ensures NonNumeric(["Newtonsoft", "Json", "12", "0", "3"]) == ["Newtonsoft", "Json"]
  {
    SegmentKinds();
    NonNumericSnoc([], "Newtonsoft");
    assert [] + ["Newtonsoft"] == ["Newtonsoft"];
    NonNumericSnoc(["Newtonsoft"], "Json");
    assert ["Newtonsoft"] + ["Json"] == ["Newtonsoft", "Json"];
    NonNumericSnoc(["Newtonsoft", "Json"], "12");
    assert ["Newtonsoft", "Json"] + ["12"] == ["Newtonsoft", "Json", "12"];
    NonNumericSnoc(["Newtonsoft", "Json", "12"], "0");
    assert ["Newtonsoft", "Json", "12"] + ["0"] == ["Newtonsoft", "Json", "12", "0"];
    NonNumericSnoc(["Newtonsoft", "Json", "12", "0"], "3");
    assert ["Newtonsoft", "Json", "12", "0"] + ["3"] == ["Newtonsoft", "Json", "12", "0", "3"];
  }

  /** Worked value: the cache folder `Newtonsoft.Json.12.0.3` names the package
      `Newtonsoft.Json`. */
  lemma PackageNameExample()
    ensures PackageNameFromFolder(Join(["Newtonsoft", "Json", "12", "0", "3"], '.')) == Join(["Newtonsoft", "Json"], '.')
  {
    SplitJoin(["Newtonsoft", "Json", "12", "0", "3"], '.');
    NonNumericExample();
  }

  /** The package name of a hint: empty unless the hint is under a package cache and the
      packages-folder pattern matches it. */
  function PackageNameOf(hint: string): string
    requires PackageNameDefined(hint)
  {
    if IsPackageHint(hint) then
      match PackageFolder(hint)
      case Some(folder) => PackageNameFromFolder(folder)
      case None => ""
    else ""
  }

  /** A hint `<lead>\packages\<folder>\…`, with a lead of at least two characters
      (`..`, `..\..`, …) in which the packages-folder pattern finds no earlier
      `\packages\` from its third character on, names the package its cache folder
      stands for. */
  lemma PackageNameOfCacheHint(lead: string, folder: string, rest: string)
    requires |lead| >= 2
    requires forall k :: 2 <= k < |lead| ==> !MatchesAt(lead + PackagesMarker, PackagesMarker, k)
    requires '\\' !in folder
    requires NonNumeric(Split(folder, '.')) != []
    ensures IsPackageHint(lead + PackagesMarker + folder + Backslash + rest)
    ensures PackageNameDefined(lead + PackagesMarker + folder + Backslash + rest) &&
            PackageNameOf(lead + PackagesMarker + folder + Backslash + rest) == PackageNameFromFolder(folder)
  {
    var hint := lead + PackagesMarker + folder + Backslash + rest;
    assert IsPackageHint(hint) by {
      assert hint[|lead|..|lead| + |PackagesMarker|] == PackagesMarker;
      assert OccursAt(hint, PackagesMarker, |lead|);
    }
    CacheHintFolder(lead, folder, rest);
  }

  /** The packages-folder pattern captures the cache folder of such a hint. */
  lemma CacheHintFolder(lead: string, folder: string, rest: string)
    requires |lead| >= 2
    requires forall k :: 2 <= k < |lead| ==> !MatchesAt(lead + PackagesMarker, PackagesMarker, k)
    requires '\\' !in folder
    ensures PackageFolder(lead + PackagesMarker + folder + Backslash + rest) == Some(folder)
  {
    var hint := lead + PackagesMarker + folder + Backslash + rest;
    assert hint == (lead + PackagesMarker) + (folder + Backslash + rest);
    forall k | 2 <= k < |lead| ensures !MatchesAt(hint, PackagesMarker, k) {
      MatchesInPrefix(lead + PackagesMarker, folder + Backslash + rest, PackagesMarker, k);
    }
    LazyCaptureSkip(hint, PackagesMarker, Backslash, 2, |lead|);
    LazyCaptureOfTaggedBody(lead, PackagesMarker, PackagesMarker, folder, Backslash, Backslash, rest);
  }

  /** An occurrence that fits inside a prefix is an occurrence in the prefix. */
  lemma MatchesInPrefix(pre: string, post: string, pat: string, k: nat)
    requires k + |pat| <= |pre|
    ensures MatchesAt(pre + post, pat, k) <==> MatchesAt(pre, pat, k)
  {
    assert forall j :: 0 <= j < |pre| ==> (pre + post)[j] == pre[j];
  }

  /** The common nested layout: `..\..\packages\<folder>\…` names the package of its
      cache folder. */
  lemma PackageNameOfNestedCacheHint(folder: string, rest: string)
    requires '\\' !in folder
    requires NonNumeric(Split(folder, '.')) != []
    ensures PackageNameDefined("..\\.." + PackagesMarker + folder + Backslash + rest) &&
            PackageNameOf("..\\.." + PackagesMarker + folder + Backslash + rest) == PackageNameFromFolder(folder)
  {
    var text := "..\\.." + PackagesMarker;
    assert !MatchesAt(text, PackagesMarker, 2) by {
      assert LowerChar(text[3]) != LowerChar(PackagesMarker[1]);
    }
    assert !MatchesAt(text, PackagesMarker, 3) by {
      assert LowerChar(text[3]) != LowerChar(PackagesMarker[0]);
    }
    assert !MatchesAt(text, PackagesMarker, 4) by {
      assert LowerChar(text[4]) != LowerChar(PackagesMarker[0]);
    }
    PackageNameOfCacheHint("..\\..", folder, rest);
  }

  // ---------------------------------------------------------------------------
  // The three kinds of reference record
  // ---------------------------------------------------------------------------

  /** The record built from a rich reference match. */
  function RichReference(m: RichMatch): Reference
    requires RichMatchLoadable(m)
  {
    var hint := HintOf(m.body);
    var priv := PrivateOf(m.body);
    Reference(
      name := Split(m.includeValue, ',')[0],
      hint := hint,
      fullRef := m.includeValue,
      isPrivate := priv.Some? && Lower(priv.value) == "true",
      hasPrivate := priv.Some?,
      packageName := PackageNameOf(hint),
      isPackage := IsPackageHint(hint),
      isPackageReference := false,
      version := "")
  }

  /** What a rich reference record holds, in terms of its include string and body. */
  lemma RichReferenceFields(m: RichMatch)
    requires RichMatchLoadable(m)
    // the assembly name is everything before the first comma of the include string
    ensures var r := RichReference(m);
      && r.name <= m.includeValue && ',' !in r.name
      && (|r.name| < |m.includeValue| ==> m.includeValue[|r.name|] == ',')
      && r.fullRef == m.includeValue
    // the hint is the greedy `<HintPath>` capture, empty when the body has none
    ensures !HasMatch(m.body, HintOpen, HintClose, 0) ==> RichReference(m).hint == ""
    ensures forall i, j :: IsGreedyMatch(m.body, HintOpen, HintClose, 0, i, j) ==>
              RichReference(m).hint == m.body[i + |HintOpen|..j]
    ensures RichReference(m).isPackage <==> Contains(RichReference(m).hint, PackagesMarker)
    // the private flag is set from the greedy `<Private>` capture, when there is one
    ensures RichReference(m).hasPrivate <==> HasMatch(m.body, PrivateOpen, PrivateClose, 0)
    ensures RichReference(m).isPrivate ==> RichReference(m).hasPrivate
    ensures forall i, j :: IsGreedyMatch(m.body, PrivateOpen, PrivateClose, 0, i, j) ==>
              (RichReference(m).isPrivate <==> Lower(m.body[i + |PrivateOpen|..j]) == "true")
    ensures RichReference(m).packageName != "" ==> RichReference(m).isPackage
    ensures !RichReference(m).isPackageReference && RichReference(m).version == ""
  {
    SplitHead(m.includeValue, ',');
    GreedyCaptureIsFirstMatch(m.body, HintOpen, HintClose, 0);
    GreedyCaptureIsFirstMatch(m.body, PrivateOpen, PrivateClose, 0);
  }

  /** The record built from a bare `<Reference Include="…" />`. */
  function BareReference(name: string): Reference
  {
    Reference(
      name := name, hint := "", fullRef := name, isPrivate := false, hasPrivate := false,
      packageName := "", isPackage := false, isPackageReference := false, version := "")
  }

  /** The record built from a `<PackageReference>` with an explicit version. */
  function PackageReference(m: PackageRefMatch): Reference
  {
    Reference(
      name := m.includeValue, hint := "", fullRef := m.includeValue, isPrivate := false, hasPrivate := false,
      packageName := "", isPackage := true, isPackageReference := false, version := m.version)
  }

  function ProjectReferenceOf(m: ProjectRefMatch): ProjectReference
  {
    ProjectReference(key := "", name := m.name, path := m.path, rootNamespace := "")
  }

  predicate Loadable(matches: ReferenceMatches)
  {
    forall k :: 0 <= k < |matches.rich| ==> RichMatchLoadable(matches.rich[k])
  }

  /** The records built from the rich `<Reference>` elements, in match order. */
  function RichReferencesOf(rich: seq<RichMatch>): seq<Reference>
    requires forall k :: 0 <= k < |rich| ==> RichMatchLoadable(rich[k])
  {
    seq(|rich|, k requires 0 <= k < |rich| && RichMatchLoadable(rich[k]) => RichReference(rich[k]))
  }

  function BareReferencesOf(bare: seq<string>): seq<Reference>
  {
    seq(|bare|, k requires 0 <= k < |bare| => BareReference(bare[k]))
  }

  function PackageReferencesOf(pkgs: seq<PackageRefMatch>): seq<Reference>
  {
    seq(|pkgs|, k requires 0 <= k < |pkgs| => PackageReference(pkgs[k]))
  }

  /** All references of a description: rich ones, then bare ones, then package references. */
  function ReferencesOf(matches: ReferenceMatches): seq<Reference>
    requires Loadable(matches)
  {
    RichReferencesOf(matches.rich) + BareReferencesOf(matches.bare) + PackageReferencesOf(matches.packageRefs)
  }

  function ProjectReferencesOf(ms: seq<ProjectRefMatch>): seq<ProjectReference>
  {
    seq(|ms|, k requires 0 <= k < |ms| => ProjectReferenceOf(ms[k]))
  }

  /** The layout of the reference list: no de-duplication, the three families in order, and
      the flags each family carries. */
  lemma ReferencesLayout(matches: ReferenceMatches)
    requires Loadable(matches)
    ensures var refs, nr, nb := ReferencesOf(matches), |matches.rich|, |matches.bare|;
      && |refs| == nr + nb + |matches.packageRefs|
      && (forall k :: 0 <= k < nr ==> refs[k] == RichReference(matches.rich[k]))
      && (forall k :: 0 <= k < nb ==>
            && refs[nr + k].name == refs[nr + k].fullRef == matches.bare[k]
            && refs[nr + k].hint == "" && !refs[nr + k].isPackage && !refs[nr + k].hasPrivate
            && refs[nr + k].version == "")
      && (forall k :: 0 <= k < |matches.packageRefs| ==>
            && refs[nr + nb + k].name == matches.packageRefs[k].includeValue
            && refs[nr + nb + k].isPackage
            && refs[nr + nb + k].version == matches.packageRefs[k].version)
  {
  }

  // ---------------------------------------------------------------------------
  // The loops of loadReferences and loadFiles
  // ---------------------------------------------------------------------------

  /** One iteration of the rich-reference loop of `loadReferences`. */
  method BuildRichReference(m: RichMatch) returns (ref: Reference)
    requires RichMatchLoadable(m)
    ensures ref == RichReference(m)
  {
    var name := m.includeValue;
    var hint := "";
    var isPrivate := false;
    var hmatch := GreedyCapture(m.body, HintOpen, HintClose, 0);
    if hmatch.Some? {
      hint := hmatch.value;
    }
    var pmatch := GreedyCapture(m.body, PrivateOpen, PrivateClose, 0);
    var hasPrivate := false;
    if pmatch.Some? {
      isPrivate := Lower(pmatch.value) == "true";
      hasPrivate := true;
    }
    var isPkg := Contains(hint, PackagesMarker);
    var pkgname := "";
    if isPkg {
      var folder := PackageFolder(hint);
      if folder.Some? {
        pkgname := DerivePackageName(folder.value);
      }
    }
    var assemblyName := Split(name, ',')[0];
    ref := Reference(
      name := assemblyName, hint := hint, fullRef := name, isPrivate := isPrivate,
      hasPrivate := hasPrivate, packageName := pkgname, isPackage := isPkg,
      isPackageReference := false, version := "");
  }

  /** The rich-reference loop of `loadReferences`. */
  method AppendRichReferences(refs0: seq<Reference>, rich: seq<RichMatch>) returns (refs: seq<Reference>)
    requires forall k :: 0 <= k < |rich| ==> RichMatchLoadable(rich[k])
    ensures refs == refs0 + RichReferencesOf(rich)
  {
    ghost var built := RichReferencesOf(rich);
    refs := refs0;
    for i := 0 to |rich|
      invariant refs == refs0 + built[..i]
    {
      var ref := BuildRichReference(rich[i]);
      assert built[..i + 1] == built[..i] + [ref];
      refs := refs + [ref];
    }
    assert built[..|rich|] == built;
  }

  /** The bare-reference loop of `loadReferences`. */
  method AppendBareReferences(refs0: seq<Reference>, bare: seq<string>) returns (refs: seq<Reference>)
    ensures refs == refs0 + BareReferencesOf(bare)
  {
    ghost var built := BareReferencesOf(bare);
    refs := refs0;
    for i := 0 to |bare|
      invariant refs == refs0 + built[..i]
    {
      var name := bare[i];
      var ref := Reference(
        name := name, hint := "", fullRef := name, isPrivate := false, hasPrivate := false,
        packageName := "", isPackage := false, isPackageReference := false, version := "");
      assert built[..i + 1] == built[..i] + [ref];
      refs := refs + [ref];
    }
    assert built[..|bare|] == built;
  }

  /** The package-reference loop of `loadReferences`. */
  method AppendPackageReferences(refs0: seq<Reference>, pkgs: seq<PackageRefMatch>) returns (refs: seq<Reference>)
    ensures refs == refs0 + PackageReferencesOf(pkgs)
  {
    ghost var built := PackageReferencesOf(pkgs);
    refs := refs0;
    for i := 0 to |pkgs|
      invariant refs == refs0 + built[..i]
    {
      var name := pkgs[i].includeValue;
      var version := pkgs[i].version;
      var ref := Reference(
        name := name, hint := "", fullRef := name, isPrivate := false, hasPrivate := false,
        packageName := "", isPackage := true, isPackageReference := false, version := version);
      assert built[..i + 1] == built[..i] + [ref];
      refs := refs + [ref];
    }
    assert built[..|pkgs|] == built;
  }

  /** `loadReferences` from the captures onward. */
  method LoadReferences(matches: ReferenceMatches) returns (refs: seq<Reference>, projrefs: seq<ProjectReference>)
    requires Loadable(matches)
    ensures refs == ReferencesOf(matches)
    ensures projrefs == ProjectReferencesOf(matches.projectRefs)
  {
    refs := AppendRichReferences([], matches.rich);
    refs := AppendBareReferences(refs, matches.bare);
    refs := AppendPackageReferences(refs, matches.packageRefs);
    var projs := matches.projectRefs;
    ghost var linked := ProjectReferencesOf(projs);
    projrefs := [];
    for i := 0 to |projs|
      invariant projrefs == linked[..i]
    {
      var pref := ProjectReference(key := "", name := projs[i].name, path := projs[i].path, rootNamespace := "");
      assert linked[..i + 1] == linked[..i] + [pref];
      projrefs := projrefs + [pref];
    }
    assert linked[..|projs|] == linked;
  }

  function FileOf(m: FileMatch): File
  {
    File(path := m.path, kind := m.kind, subType := "")
  }

  /** All member files: the self-closing matches, then the block matches. */
  function FilesOf(selfClosing: seq<FileMatch>, block: seq<FileMatch>): seq<File>
  {
    seq(|selfClosing|, k requires 0 <= k < |selfClosing| => FileOf(selfClosing[k]))
    + seq(|block|, k requires 0 <= k < |block| => FileOf(block[k]))
  }

  /** `loadFiles` from the captures onward. */
  method LoadFiles(selfClosing: seq<FileMatch>, block: seq<FileMatch>) returns (files: seq<File>)
    ensures |files| == |selfClosing| + |block|
    ensures forall k :: 0 <= k < |selfClosing| ==>
              files[k].path == selfClosing[k].path && files[k].kind == selfClosing[k].kind
    ensures forall k :: 0 <= k < |block| ==>
              files[|selfClosing| + k].path == block[k].path && files[|selfClosing| + k].kind == block[k].kind
    ensures forall k :: 0 <= k < |files| ==> files[k].subType == ""
    ensures files == FilesOf(selfClosing, block)
  {
    ghost var all := FilesOf(selfClosing, block);
    files := [];
    for i := 0 to |selfClosing|
      invariant files == all[..i]
    {
      var file := File(path := selfClosing[i].path, kind := selfClosing[i].kind, subType := "");
      files := files + [file];
    }
    for i := 0 to |block|
      invariant files == all[..|selfClosing| + i]
    {
      var file := File(path := block[i].path, kind := block[i].kind, subType := "");
      assert file == all[|selfClosing| + i];
      files := files + [file];
    }
    assert files == all;
  }
}
