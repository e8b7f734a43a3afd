/**
 * The part of the filesystem the tasks touch: which directories exist and
 * what each written file holds. Directory creation records only the
 * directory asked for, not the parents `os.makedirs` would also create.
 */
module Disk {

  /** What a written file holds: a sheet (first row: column headings) or plain text. */
  datatype Content = Sheet(rows: seq<seq<string>>) | Text(text: string)

  /** The directories after `create_directory_if_not_exists` on each of `paths` in turn. */
  function AfterMakeDirs(dirs: set<string>, files: map<string, Content>, paths: seq<string>): set<string>
    decreases |paths|
  {
    if paths == [] then dirs
    else
      var p := paths[0];
      AfterMakeDirs(if p in dirs || p in files then dirs else dirs + {p}, files, paths[1..])
  }

  /**
   * Afterwards every path exists, and the only new directories are the
   * requested ones that were not already files.
   */
  lemma {:induction false} AfterMakeDirsEffect(dirs: set<string>, files: map<string, Content>,
                                               paths: seq<string>, d: string)
    ensures d in paths ==> d in AfterMakeDirs(dirs, files, paths) || d in files
    ensures d in AfterMakeDirs(dirs, files, paths) <==> d in dirs || (d in paths && d !in files)
    decreases |paths|
  {
    if paths != [] {
      var p := paths[0];
      var next := if p in dirs || p in files then dirs else dirs + {p};
      AfterMakeDirsEffect(next, files, paths[1..], d);
      assert d in paths <==> d == p || d in paths[1..];
    }
  }

  /** The files after writing each `(path, content)` of `writes` in turn. */
  function ApplyWrites(files: map<string, Content>, writes: seq<(string, Content)>): map<string, Content>
    decreases |writes|
  {
    if writes == [] then files
    else
      var last := writes[|writes| - 1];
      ApplyWrites(files, writes[..|writes| - 1])[last.0 := last.1]
  }

  /** Doing one more write of the list is writing that file after the earlier ones. */
  lemma ApplyWritesStep(files: map<string, Content>, writes: seq<(string, Content)>, k: nat)
    requires k < |writes|
    ensures ApplyWrites(files, writes[..k + 1]) == ApplyWrites(files, writes[..k])[writes[k].0 := writes[k].1]
  {
    assert writes[..k + 1][..k] == writes[..k];
  }

  /** No two writes go to the same path. */
  predicate DistinctPaths(writes: seq<(string, Content)>)
  {
    forall a, b :: 0 <= a < b < |writes| ==> writes[a].0 != writes[b].0
  }

  /**
   * After writes to distinct paths each written path holds what was written
   * to it, and every other path is as before.
   */
  lemma {:induction false} ApplyWritesEffect(files: map<string, Content>, writes: seq<(string, Content)>, p: string)
    requires DistinctPaths(writes)
    ensures forall k :: 0 <= k < |writes| && writes[k].0 == p ==>
              p in ApplyWrites(files, writes) && ApplyWrites(files, writes)[p] == writes[k].1
    ensures (forall k :: 0 <= k < |writes| ==> writes[k].0 != p) ==>
              (p in ApplyWrites(files, writes) <==> p in files) &&
              (p in files ==> ApplyWrites(files, writes)[p] == files[p])
    decreases |writes|
  {
    if writes != [] {
      var init := writes[..|writes| - 1];
      assert DistinctPaths(init) by {
        forall a, b | 0 <= a < b < |init| ensures init[a].0 != init[b].0 {
          assert init[a] == writes[a] && init[b] == writes[b];
        }
      }
      ApplyWritesEffect(files, init, p);
      forall k | 0 <= k < |init| ensures init[k] == writes[k] {
      }
    }
  }

  class FileSystem {
    var dirs: set<string>
    var files: map<string, Content>

    constructor(dirs0: set<string>, files0: map<string, Content>)
      ensures dirs == dirs0 && files == files0
    {
      dirs := dirs0;
      files := files0;
    }

    /** `os.path.exists(path)`: a directory or a file. */
    predicate Exists(path: string)
      reads this
    {
      path in dirs || path in files
    }

    /** `create_directory_if_not_exists`: `os.makedirs(path)` unless the path already exists. */
    method MakeDirsIfMissing(path: string)
      modifies this
      ensures dirs == if old(Exists(path)) then old(dirs) else old(dirs) + {path}
      ensures files == old(files)
    {
      if !Exists(path) {
        dirs := dirs + {path};
      }
    }

    /** Writes (or overwrites) one file. */
    method Write(path: string, content: Content)
      modifies this
      ensures files == old(files)[path := content]
      ensures dirs == old(dirs)
    {
      files := files[path := content];
    }
  }
}
