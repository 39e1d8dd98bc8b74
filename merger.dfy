/** `mapPackageToRefVersion`: give hint-path references the version recorded for their
    package. As written, the guard skips the references whose version is EMPTY and
    overwrites the ones that already have a version; the comment beside it describes
    the opposite. The model follows the code. */
module Merger {
  import opened Data

  /** `pmap`: package id to package; a later package with the same id replaces an earlier one. */
  function PackageIndex(packages: seq<Package>): map<string, Package>
    decreases |packages|
  {
    if |packages| == 0 then map[]
    else
      var last := packages[|packages| - 1];
      PackageIndex(packages[..|packages| - 1])[last.id := last]
  }

  /** Position `k` holds the last package with its id. */
  ghost predicate IsLastWithId(packages: seq<Package>, k: int)
  {
    0 <= k < |packages| && forall k' :: k < k' < |packages| ==> packages[k'].id != packages[k].id
  }

  /** The index holds exactly the ids of the packages. */
  lemma {:induction false} PackageIndexDomain(packages: seq<Package>, id: string)
    ensures id in PackageIndex(packages) <==> exists k :: 0 <= k < |packages| && packages[k].id == id
    decreases |packages|
  {
    if |packages| > 0 {
      var n := |packages| - 1;
      var init := packages[..n];
      PackageIndexDomain(init, id);
      if id in PackageIndex(packages) && id != packages[n].id {
        var k :| 0 <= k < |init| && init[k].id == id;
        assert packages[k].id == id;
      }
      if id !in PackageIndex(packages) {
        forall k | 0 <= k < |packages| ensures packages[k].id != id {
          if k < n {
            assert init[k] == packages[k];
          }
        }
      }
    }
  }

  /** Each id is bound to the last package that carries it. */
  lemma {:induction false} PackageIndexLastWins(packages: seq<Package>, k: int)
    requires IsLastWithId(packages, k)
    ensures packages[k].id in PackageIndex(packages)
    ensures PackageIndex(packages)[packages[k].id] == packages[k]
    decreases |packages|
  {
    var n := |packages| - 1;
    if k < n {
      var init := packages[..n];
      assert IsLastWithId(init, k);
      PackageIndexLastWins(init, k);
    }
  }

  /** One iteration of the loop over the references. */
  function MergedReference(ref: Reference, pmap: map<string, Package>): Reference
  {
    if ref.version == "" || ref.hint == "" then ref
    else if ref.name in pmap then ref.(version := pmap[ref.name].version)
    else ref
  }

  function MergeAll(refs: seq<Reference>, packages: seq<Package>): seq<Reference>
  {
    var pmap := PackageIndex(packages);
    seq(|refs|, k requires 0 <= k < |refs| => MergedReference(refs[k], pmap))
  }

  /** What the merge does to one reference: only the version can change; a reference
      without a version or without a hint, or whose name is no package id, is left alone;
      otherwise it takes the version of the last package with its name. */
  lemma MergedReferenceSpec(ref: Reference, packages: seq<Package>)
    ensures MergedReference(ref, PackageIndex(packages)).(version := ref.version) == ref
    ensures ref.version == "" || ref.hint == "" ==> MergedReference(ref, PackageIndex(packages)) == ref
    ensures (forall k :: 0 <= k < |packages| ==> packages[k].id != ref.name) ==>
              MergedReference(ref, PackageIndex(packages)) == ref
    ensures forall k :: IsLastWithId(packages, k) && packages[k].id == ref.name && ref.version != "" && ref.hint != "" ==>
              MergedReference(ref, PackageIndex(packages)).version == packages[k].version
  {
    PackageIndexDomain(packages, ref.name);
    forall k | IsLastWithId(packages, k) && packages[k].id == ref.name && ref.version != "" && ref.hint != ""
      ensures MergedReference(ref, PackageIndex(packages)).version == packages[k].version
    {
      PackageIndexLastWins(packages, k);
    }
  }

  /** `mapPackageToRefVersion`: the references are updated in place, through the pointer. */
  method MapPackageToRefVersion(references: array<Reference>, packages: seq<Package>)
    modifies references
    ensures references[..] == MergeAll(old(references[..]), packages)
  {
    var pmap := map[];
    for i := 0 to |packages|
      invariant pmap == PackageIndex(packages[..i])
    {
      assert packages[..i + 1][..i] == packages[..i];
      pmap := pmap[packages[i].id := packages[i]];
    }
    assert packages[..|packages|] == packages;
    for i := 0 to references.Length
      invariant forall k :: 0 <= k < i ==> references[k] == MergedReference(old(references[k]), pmap)
      invariant forall k :: i <= k < references.Length ==> references[k] == old(references[k])
    {
      if references[i].version == "" {
        continue;
      }
      if references[i].hint == "" {
        continue;
      }
      if references[i].name in pmap {
        references[i] := references[i].(version := pmap[references[i].name].version);
      }
    }
  }

  /** The guard as written: a hint-path reference with no version stays without one even
      when a package with its name exists, while one that has a version is overwritten. */
  lemma MergeFillsOnlyExistingVersions(ref: Reference, pkg: Package)
    requires ref.hint != "" && ref.name == pkg.id
    ensures ref.version == "" ==> MergedReference(ref, PackageIndex([pkg])).version == ""
    ensures ref.version != "" ==> MergedReference(ref, PackageIndex([pkg])).version == pkg.version
  {
    assert [pkg][..0] == [];
  }
}
