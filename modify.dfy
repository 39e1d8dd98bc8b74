/** The editing helpers of `modify.go`, on a handle that stands for a `*Project` pointer. */
module Modify {
  import opened Data

  /** The set of file paths of a project (the keys of `GetFileMap`). */
  function PathSet(files: seq<File>): set<string>
  {
    set f | f in files :: f.path
  }

  /** No two files share a path. */
  predicate DistinctPaths(files: seq<File>)
  {
    forall i, j :: 0 <= i < j < |files| ==> files[i].path != files[j].path
  }

  /** Appending a file adds exactly its path. */
  lemma PathSetSnoc(files: seq<File>, f: File)
    ensures PathSet(files + [f]) == PathSet(files) + {f.path}
  {
    assert forall g :: g in files + [f] <==> g in files || g == f;
  }

  /** Appending a file keeps the paths distinct iff its path is new. */
  lemma DistinctPathsSnoc(files: seq<File>, f: File)
    ensures DistinctPaths(files + [f]) <==> DistinctPaths(files) && f.path !in PathSet(files)
  {
    var all := files + [f];
    assert forall i :: 0 <= i < |files| ==> all[i] == files[i];
    if f.path in PathSet(files) {
      var g :| g in files && g.path == f.path;
      var i :| 0 <= i < |files| && files[i] == g;
      assert all[i].path == all[|files|].path;
    }
  }

  /** The file map has at most one entry per file, and exactly one per file iff no two files
      share a path. */
  lemma {:induction false} PathSetSize(files: seq<File>)
    ensures |PathSet(files)| <= |files|
    ensures |PathSet(files)| == |files| <==> DistinctPaths(files)
    decreases |files|
  {
    if |files| > 0 {
      var n := |files| - 1;
      var init := files[..n];
      PathSetSize(init);
      assert init + [files[n]] == files;
      PathSetSnoc(init, files[n]);
      DistinctPathsSnoc(init, files[n]);
    }
  }

  /** A project reached through a pointer: the methods change the record in place. */
  class ProjectHandle {
    var project: Project

    constructor(p: Project)
      ensures project == p
    {
      project := p;
    }

    /** `AddFile`: append one file record; nothing else changes and nothing is
        de-duplicated. */
    method AddFile(path: string, t: string, subtype: string)
      modifies this
      ensures project == old(project).(files := old(project).files + [File(path, t, subtype)])
    {
      var f := File(path, t, subtype);
      project := project.(files := project.files + [f]);
    }

    /** `GetFileMap`: every file path maps to `true`. */
    method GetFileMap() returns (m: map<string, bool>)
      ensures m.Keys == PathSet(project.files)
      ensures forall path :: path in m ==> m[path]
    {
      m := map[];
      var files := project.files;
      for i := 0 to |files|
        invariant m.Keys == PathSet(files[..i])
        invariant forall path :: path in m ==> m[path]
      {
        PathSetSnoc(files[..i], files[i]);
        assert files[..i + 1] == files[..i] + [files[i]];
        m := m[files[i].path := true];
      }
      assert files[..|files|] == files;
    }
  }

  /** After adding a file, the file map gains exactly its path; the list grows by one even
      when the path was already there. */
  lemma AddFileEffect(files: seq<File>, path: string, t: string, subtype: string)
    ensures |files + [File(path, t, subtype)]| == |files| + 1
    ensures PathSet(files + [File(path, t, subtype)]) == PathSet(files) + {path}
    ensures path in PathSet(files) ==> PathSet(files + [File(path, t, subtype)]) == PathSet(files)
  {
    PathSetSnoc(files, File(path, t, subtype));
  }
}
