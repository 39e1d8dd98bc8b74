/** `MapProjectReferences`: resolve every project reference's namespace to the key of the
    project that declares it, failing on the first namespace no project declares.

    In Go the loop variable `p` is a copy of each project, but `p.ProjectRefs` shares its
    backing array with the caller's slice, so the caller's references receive their keys
    too, even when the call fails part-way. Projects here are values, so that sharing is
    not part of the model: the result carries the updated references and the input is
    untouched. */
module Linker {
  import opened Wrappers
  import opened Data

  /** The error text for a namespace that no project declares. */
  function UnresolvedMessage(namespace: string): string
  {
    "Project with namespace '" + namespace + "' referenced but a repository was not found"
  }

  // ---------------------------------------------------------------------------
  // The namespace index (first phase)
  // ---------------------------------------------------------------------------

  /** `keymap`: root namespace to project key; a later project with the same namespace
      replaces an earlier one. */
  function NamespaceIndex(projects: seq<Project>): map<string, string>
    decreases |projects|
  {
    if |projects| == 0 then map[]
    else
      var last := projects[|projects| - 1];
      NamespaceIndex(projects[..|projects| - 1])[last.rootNamespace := last.key]
  }

  /** Some project of the batch declares `namespace`. */
  ghost predicate Declared(projects: seq<Project>, namespace: string)
  {
    exists k :: 0 <= k < |projects| && projects[k].rootNamespace == namespace
  }

  /** Position `k` holds the last project declaring its namespace. */
  ghost predicate IsLastWithNamespace(projects: seq<Project>, k: int)
  {
    0 <= k < |projects| &&
    forall k' :: k < k' < |projects| ==> projects[k'].rootNamespace != projects[k].rootNamespace
  }

  /** The index holds exactly the declared namespaces. */
  lemma {:induction false} NamespaceIndexDomain(projects: seq<Project>, namespace: string)
    ensures namespace in NamespaceIndex(projects) <==> Declared(projects, namespace)
    decreases |projects|
  {
    if |projects| > 0 {
      var n := |projects| - 1;
      var init := projects[..n];
      NamespaceIndexDomain(init, namespace);
      if namespace in NamespaceIndex(projects) && namespace != projects[n].rootNamespace {
        var k :| 0 <= k < |init| && init[k].rootNamespace == namespace;
        assert projects[k].rootNamespace == namespace;
      }
      if namespace !in NamespaceIndex(projects) {
        forall k | 0 <= k < |projects| ensures projects[k].rootNamespace != namespace {
          if k < n {
            assert init[k] == projects[k];
          }
        }
      }
    }
  }

  /** Each namespace is bound to the key of the last project that declares it. */
  lemma {:induction false} NamespaceIndexLastWins(projects: seq<Project>, k: int)
    requires IsLastWithNamespace(projects, k)
    ensures projects[k].rootNamespace in NamespaceIndex(projects)
    ensures NamespaceIndex(projects)[projects[k].rootNamespace] == projects[k].key
    decreases |projects|
  {
    var n := |projects| - 1;
    if k < n {
      var init := projects[..n];
      assert IsLastWithNamespace(init, k);
      NamespaceIndexLastWins(init, k);
    }
  }

  // ---------------------------------------------------------------------------
  // Resolution (second phase), as functions
  // ---------------------------------------------------------------------------

  /** The inner loop over one project's references: each takes the key its namespace is
      bound to; the first unbound namespace is an error. */
  function ResolveRefs(refs: seq<ProjectReference>, keymap: map<string, string>): Result<seq<ProjectReference>, string>
    decreases |refs|
  {
    if |refs| == 0 then Success([])
    else
      var last := refs[|refs| - 1];
      match ResolveRefs(refs[..|refs| - 1], keymap)
      case Failure(e) => Failure(e)
      case Success(done) =>
        if last.name in keymap then Success(done + [last.(key := keymap[last.name])])
        else Failure(UnresolvedMessage(last.name))
  }

  /** The outer loop over the projects. */
  function LinkWith(projects: seq<Project>, keymap: map<string, string>): Result<seq<Project>, string>
    decreases |projects|
  {
    if |projects| == 0 then Success([])
    else
      var last := projects[|projects| - 1];
      match LinkWith(projects[..|projects| - 1], keymap)
      case Failure(e) => Failure(e)
      case Success(list) =>
        match ResolveRefs(last.projectRefs, keymap)
        case Failure(e) => Failure(e)
        case Success(refs) => Success(list + [last.(projectRefs := refs)])
  }

  /** The whole pass: index the batch, then resolve against that index. */
  function Link(projects: seq<Project>): Result<seq<Project>, string>
  {
    LinkWith(projects, NamespaceIndex(projects))
  }

  // ---------------------------------------------------------------------------
  // What resolution does
  // ---------------------------------------------------------------------------

  /** Resolving one list succeeds iff every name is bound. */
  lemma {:induction false} ResolveRefsSucceedsIff(refs: seq<ProjectReference>, keymap: map<string, string>)
    ensures ResolveRefs(refs, keymap).Success? <==> forall j :: 0 <= j < |refs| ==> refs[j].name in keymap
    decreases |refs|
  {
    if |refs| > 0 {
      var n := |refs| - 1;
      var init := refs[..n];
      ResolveRefsSucceedsIff(init, keymap);
      assert forall j :: 0 <= j < n ==> init[j] == refs[j];
    }
  }

  /** On success each reference gets its bound key and nothing else changes. */
  lemma {:induction false} ResolveRefsShape(refs: seq<ProjectReference>, keymap: map<string, string>)
    requires ResolveRefs(refs, keymap).Success?
    ensures var out := ResolveRefs(refs, keymap).value;
              |out| == |refs| &&
              forall j :: 0 <= j < |refs| ==>
                refs[j].name in keymap && out[j] == refs[j].(key := keymap[refs[j].name])
    decreases |refs|
  {
    if |refs| > 0 {
      var n := |refs| - 1;
      var init := refs[..n];
      ResolveRefsShape(init, keymap);
      var done := ResolveRefs(init, keymap).value;
      var out := ResolveRefs(refs, keymap).value;
      assert out == done + [refs[n].(key := keymap[refs[n].name])];
      forall j | 0 <= j < |refs|
        ensures refs[j].name in keymap && out[j] == refs[j].(key := keymap[refs[j].name])
      {
        if j < n {
          assert init[j] == refs[j] && out[j] == done[j];
        }
      }
    }
  }

  /** On failure the error names the first unbound name. */
  lemma {:induction false} ResolveRefsFailure(refs: seq<ProjectReference>, keymap: map<string, string>)
    requires ResolveRefs(refs, keymap).Failure?
    ensures exists j :: && 0 <= j < |refs| && refs[j].name !in keymap
                        && (forall j' :: 0 <= j' < j ==> refs[j'].name in keymap)
                        && ResolveRefs(refs, keymap).error == UnresolvedMessage(refs[j].name)
    decreases |refs|
  {
    var n := |refs| - 1;
    var init := refs[..n];
    assert forall j :: 0 <= j < n ==> init[j] == refs[j];
    if ResolveRefs(init, keymap).Failure? {
      ResolveRefsFailure(init, keymap);
      var j :| && 0 <= j < |init| && init[j].name !in keymap
               && (forall j' :: 0 <= j' < j ==> init[j'].name in keymap)
               && ResolveRefs(init, keymap).error == UnresolvedMessage(init[j].name);
      assert refs[j].name !in keymap;
    } else {
      ResolveRefsSucceedsIff(init, keymap);
      assert refs[n].name !in keymap;
    }
  }

  /** A failure within the first `i + 1` references is the failure of the whole list. */
  lemma {:induction false} ResolveRefsFailurePersists(refs: seq<ProjectReference>, keymap: map<string, string>, i: nat)
    requires i < |refs|
    requires ResolveRefs(refs[..i + 1], keymap).Failure?
    ensures ResolveRefs(refs, keymap) == ResolveRefs(refs[..i + 1], keymap)
    decreases |refs| - i
  {
    if i + 1 < |refs| {
      assert refs[..|refs| - 1][..i + 1] == refs[..i + 1];
      ResolveRefsFailurePersists(refs[..|refs| - 1], keymap, i);
    } else {
      assert refs[..i + 1] == refs;
    }
  }

  /** A failure within the first `i + 1` projects is the failure of the whole batch. */
  lemma {:induction false} LinkWithFailurePersists(projects: seq<Project>, keymap: map<string, string>, i: nat)
    requires i < |projects|
    requires LinkWith(projects[..i + 1], keymap).Failure?
    ensures LinkWith(projects, keymap) == LinkWith(projects[..i + 1], keymap)
    decreases |projects| - i
  {
    if i + 1 < |projects| {
      assert projects[..|projects| - 1][..i + 1] == projects[..i + 1];
      LinkWithFailurePersists(projects[..|projects| - 1], keymap, i);
    } else {
      assert projects[..i + 1] == projects;
    }
  }

  /** Position `(i, j)` is the first reference, in project order and then reference order,
      whose name `keymap` does not bind. */
  ghost predicate FirstUnbound(projects: seq<Project>, keymap: map<string, string>, i: int, j: int)
  {
    && 0 <= i < |projects| && 0 <= j < |projects[i].projectRefs|
    && projects[i].projectRefs[j].name !in keymap
    && (forall i', j' :: 0 <= i' < i && 0 <= j' < |projects[i'].projectRefs| ==>
          projects[i'].projectRefs[j'].name in keymap)
    && (forall j' :: 0 <= j' < j ==> projects[i].projectRefs[j'].name in keymap)
  }

  /** The outer loop succeeds iff every reference of every project is bound. */
  lemma {:induction false} LinkWithSucceedsIff(projects: seq<Project>, keymap: map<string, string>)
    ensures LinkWith(projects, keymap).Success? <==>
              forall i, j :: 0 <= i < |projects| && 0 <= j < |projects[i].projectRefs| ==>
                projects[i].projectRefs[j].name in keymap
    decreases |projects|
  {
    if |projects| > 0 {
      var n := |projects| - 1;
      var init := projects[..n];
      LinkWithSucceedsIff(init, keymap);
      ResolveRefsSucceedsIff(projects[n].projectRefs, keymap);
      assert forall i :: 0 <= i < n ==> init[i] == projects[i];
    }
  }

  /** On success the outer loop keeps the projects' order and all their other fields, and
      each reference gets its bound key. */
  lemma {:induction false} LinkWithShape(projects: seq<Project>, keymap: map<string, string>)
    requires LinkWith(projects, keymap).Success?
    ensures var out := LinkWith(projects, keymap).value;
              && |out| == |projects|
              && forall i :: 0 <= i < |projects| ==>
                   && out[i] == projects[i].(projectRefs := out[i].projectRefs)
                   && |out[i].projectRefs| == |projects[i].projectRefs|
                   && forall j :: 0 <= j < |projects[i].projectRefs| ==>
                        projects[i].projectRefs[j].name in keymap &&
                        out[i].projectRefs[j] == projects[i].projectRefs[j].(key := keymap[projects[i].projectRefs[j].name])
    decreases |projects|
  {
    if |projects| > 0 {
      var n := |projects| - 1;
      var init := projects[..n];
      var last := projects[n];
      LinkWithShape(init, keymap);
      ResolveRefsShape(last.projectRefs, keymap);
      var list := LinkWith(init, keymap).value;
      var refs := ResolveRefs(last.projectRefs, keymap).value;
      var out := list + [last.(projectRefs := refs)];
      assert LinkWith(projects, keymap).value == out;
      forall i | 0 <= i < |projects|
        ensures out[i] == projects[i].(projectRefs := out[i].projectRefs)
        ensures |out[i].projectRefs| == |projects[i].projectRefs|
        ensures forall j :: 0 <= j < |projects[i].projectRefs| ==>
                  projects[i].projectRefs[j].name in keymap &&
                        out[i].projectRefs[j] == projects[i].projectRefs[j].(key := keymap[projects[i].projectRefs[j].name])
      {
        if i < n {
          assert init[i] == projects[i] && out[i] == list[i];
        }
      }
    }
  }

  /** On failure the outer loop's error names the first unbound reference. */
  lemma {:induction false} LinkWithFailure(projects: seq<Project>, keymap: map<string, string>)
    requires LinkWith(projects, keymap).Failure?
    ensures exists i, j :: FirstUnbound(projects, keymap, i, j) &&
              LinkWith(projects, keymap).error == UnresolvedMessage(projects[i].projectRefs[j].name)
    decreases |projects|
  {
    var n := |projects| - 1;
    var init := projects[..n];
    var last := projects[n];
    assert forall i :: 0 <= i < n ==> init[i] == projects[i];
    match LinkWith(init, keymap)
    case Failure(e) =>
      LinkWithFailure(init, keymap);
      var i, j :| FirstUnbound(init, keymap, i, j) && e == UnresolvedMessage(init[i].projectRefs[j].name);
      assert FirstUnbound(projects, keymap, i, j);
    case Success(list) =>
      LinkWithSucceedsIff(init, keymap);
      ResolveRefsFailure(last.projectRefs, keymap);
      var e := ResolveRefs(last.projectRefs, keymap).error;
      var j :| && 0 <= j < |last.projectRefs| && last.projectRefs[j].name !in keymap
               && (forall j' :: 0 <= j' < j ==> last.projectRefs[j'].name in keymap)
               && e == UnresolvedMessage(last.projectRefs[j].name);
      assert FirstUnbound(projects, keymap, n, j);
  }

  // ---------------------------------------------------------------------------
  // What the linking pass guarantees
  // ---------------------------------------------------------------------------

  /** The pass succeeds iff every project reference names a namespace some project of the
      batch declares. */
  lemma LinkSucceedsIff(projects: seq<Project>)
    ensures Link(projects).Success? <==>
              forall i, j :: 0 <= i < |projects| && 0 <= j < |projects[i].projectRefs| ==>
                Declared(projects, projects[i].projectRefs[j].name)
  {
    LinkWithSucceedsIff(projects, NamespaceIndex(projects));
    forall namespace | true
      ensures namespace in NamespaceIndex(projects) <==> Declared(projects, namespace)
    {
      NamespaceIndexDomain(projects, namespace);
    }
  }

  /** On success the batch keeps its length and order, every field but the references'
      keys is unchanged, and each reference holds the key of the last project declaring
      its namespace. */
  lemma LinkSuccessShape(projects: seq<Project>)
    requires Link(projects).Success?
    ensures var out := Link(projects).value;
      && |out| == |projects|
      && (forall i :: 0 <= i < |projects| ==>
            && out[i] == projects[i].(projectRefs := out[i].projectRefs)
            && |out[i].projectRefs| == |projects[i].projectRefs|
            && forall j :: 0 <= j < |projects[i].projectRefs| ==>
                 out[i].projectRefs[j].(key := projects[i].projectRefs[j].key) == projects[i].projectRefs[j])
      && (forall i, j, k ::
            && 0 <= i < |projects| && 0 <= j < |projects[i].projectRefs|
            && IsLastWithNamespace(projects, k)
            && projects[k].rootNamespace == projects[i].projectRefs[j].name
            ==> out[i].projectRefs[j].key == projects[k].key)
  {
    var keymap := NamespaceIndex(projects);
    LinkWithShape(projects, keymap);
    forall k | IsLastWithNamespace(projects, k)
      ensures projects[k].rootNamespace in keymap && keymap[projects[k].rootNamespace] == projects[k].key
    {
      NamespaceIndexLastWins(projects, k);
    }
  }

  /** On failure the error names the first reference, in project order and then reference
      order, whose namespace no project declares. */
  lemma LinkFailureNamesFirst(projects: seq<Project>)
    requires Link(projects).Failure?
    ensures exists i, j :: FirstUnbound(projects, NamespaceIndex(projects), i, j) &&
              Link(projects).error == UnresolvedMessage(projects[i].projectRefs[j].name)
    ensures forall i, j :: FirstUnbound(projects, NamespaceIndex(projects), i, j) ==>
              !Declared(projects, projects[i].projectRefs[j].name)
  {
    LinkWithFailure(projects, NamespaceIndex(projects));
    forall i, j | FirstUnbound(projects, NamespaceIndex(projects), i, j)
      ensures !Declared(projects, projects[i].projectRefs[j].name)
    {
      NamespaceIndexDomain(projects, projects[i].projectRefs[j].name);
    }
  }

  // ---------------------------------------------------------------------------
  // The Go loops
  // ---------------------------------------------------------------------------

  /** The first loop of `MapProjectReferences`: fill `keymap` project by project. */
  method BuildNamespaceIndex(projects: seq<Project>) returns (keymap: map<string, string>)
    ensures keymap == NamespaceIndex(projects)
  {
    keymap := map[];
    for i := 0 to |projects|
      invariant keymap == NamespaceIndex(projects[..i])
    {
      assert projects[..i + 1][..i] == projects[..i];
      keymap := keymap[projects[i].rootNamespace := projects[i].key];
    }
    assert projects[..|projects|] == projects;
  }

  /** The inner loop of `MapProjectReferences`: write each reference's key in place, or
      stop with the error for the first namespace that is not in the index. */
  method ResolveInPlace(projectRefs: seq<ProjectReference>, keymap: map<string, string>)
    returns (r: Result<seq<ProjectReference>, string>)
    ensures r == ResolveRefs(projectRefs, keymap)
  {
    var refs := projectRefs;
    for i := 0 to |refs|
      invariant |refs| == |projectRefs|
      invariant ResolveRefs(projectRefs[..i], keymap) == Success(refs[..i])
      invariant refs[i..] == projectRefs[i..]
    {
      assert projectRefs[..i + 1][..i] == projectRefs[..i];
      assert refs[i] == projectRefs[i];
      if refs[i].name in keymap {
        refs := refs[i := refs[i].(key := keymap[refs[i].name])];
        assert refs[..i + 1] == refs[..i] + [refs[i]];
      } else {
        ResolveRefsFailurePersists(projectRefs, keymap, i);
        return Failure(UnresolvedMessage(refs[i].name));
      }
    }
    assert projectRefs[..|refs|] == projectRefs;
    assert refs[..|refs|] == refs;
    return Success(refs);
  }

  /** `MapProjectReferences`: build the index, then resolve each project's references,
      returning the error for the first namespace that is not in the index. */
  method MapProjectReferences(projects: seq<Project>) returns (r: Result<seq<Project>, string>)
    ensures r == Link(projects)
  {
    var keymap := BuildNamespaceIndex(projects);
    var list := [];
    for pi := 0 to |projects|
      invariant LinkWith(projects[..pi], keymap) == Success(list)
    {
      var p := projects[pi];
      assert projects[..pi + 1][..pi] == projects[..pi];
      var resolved := ResolveInPlace(p.projectRefs, keymap);
      if resolved.Failure? {
        LinkWithFailurePersists(projects, keymap, pi);
        return Failure(resolved.error);
      }
      list := list + [p.(projectRefs := resolved.value)];
    }
    assert projects[..|projects|] == projects;
    r := Success(list);
  }
}
