/**
 * `FileCombineTask`: asks for a directory, reads every CSV and XLSX file
 * directly in it, stacks their rows in listing order into one table and
 * writes that table to `output_<timestamp>.xlsx` in the same directory.
 *
 * The listing of the directory, the current timestamp and the table each
 * file reads as are given; reading a file is the parameter `read`.
 */
module FileCombine {
  import opened Common
  import opened Text
  import opened Paths
  import opened Disk
  import opened FileClasses

  /**
   * A pandas table: its column names, and per row the cells it has. A
   * column missing from a row's map is a missing value (NaN).
   */
  datatype Frame = Frame(columns: seq<string>, records: seq<map<string, string>>)

  /** The paths `combine_files` reads, in order: those with extension csv or xlsx. */
  function Kept(paths: seq<string>): seq<string>
    decreases |paths|
  {
    if paths == [] then []
    else
      var p := paths[|paths| - 1];
      Kept(paths[..|paths| - 1]) + (if Supported(Extension(p)) then [p] else [])
  }

  /** A path is read exactly when it is given and has a supported extension. */
  lemma {:induction false} KeptMembers(paths: seq<string>, p: string)
    ensures p in Kept(paths) <==> p in paths && Supported(Extension(p))
    decreases |paths|
  {
    if paths != [] {
      var init, last := paths[..|paths| - 1], paths[|paths| - 1];
      KeptMembers(init, p);
      var tail := if Supported(Extension(last)) then [last] else [];
      assert Kept(paths) == Kept(init) + tail;
      assert p in Kept(paths) <==> p in Kept(init) || p in tail;
      InInitOrLast(paths, p);
    }
  }

  /** Reading one more path extends the kept list by it when its extension is supported. */
  lemma KeptStep(paths: seq<string>, i: nat)
    requires i < |paths|
    ensures Kept(paths[..i + 1]) == Kept(paths[..i]) + (if Supported(Extension(paths[i])) then [paths[i]] else [])
  {
    assert paths[..i + 1][..i] == paths[..i];
  }

  /** The tables read from `paths`, in order. */
  function ReadAll(paths: seq<string>, read: string -> Frame): (frames: seq<Frame>)
    ensures |frames| == |paths|
  {
    seq(|paths|, i requires 0 <= i < |paths| => read(paths[i]))
  }

  lemma ReadAllAppend(paths: seq<string>, p: string, read: string -> Frame)
    ensures ReadAll(paths + [p], read) == ReadAll(paths, read) + [read(p)]
  {
  }

  /** `cols` followed by the names of `more` it lacks, in their order (`Index.union` without sorting). */
  function AddColumns(cols: seq<string>, more: seq<string>): seq<string>
    decreases |more|
  {
    if more == [] then cols
    else
      var c := AddColumns(cols, more[..|more| - 1]);
      var x := more[|more| - 1];
      if x in c then c else c + [x]
  }

  /** `pd.concat(frames, ignore_index=True)` on a non-empty list: the union of the columns, the rows stacked. */
  function Concat(frames: seq<Frame>): Frame
    decreases |frames|
  {
    if frames == [] then Frame([], [])
    else
      var init := Concat(frames[..|frames| - 1]);
      var last := frames[|frames| - 1];
      Frame(AddColumns(init.columns, last.columns), init.records + last.records)
  }

  /** The total number of rows of some tables. */
  function RowCount(frames: seq<Frame>): nat
    decreases |frames|
  {
    if frames == [] then 0 else RowCount(frames[..|frames| - 1]) + |frames[|frames| - 1].records|
  }

  /** `combine_files`: the read tables stacked; no table to stack is pandas' ValueError. */
  function Combined(paths: seq<string>, read: string -> Frame): Result<Frame>
  {
    var kept := Kept(paths);
    if kept == [] then Err(ValueError) else Ok(Concat(ReadAll(kept, read)))
  }

  /** Combining fails exactly when no given path has extension csv or xlsx. */
  lemma CombinedFails(paths: seq<string>, read: string -> Frame)
    ensures Combined(paths, read).Err? <==> forall p :: p in paths ==> !Supported(Extension(p))
  {
    if Kept(paths) != [] {
      KeptMembers(paths, Kept(paths)[0]);
    }
    forall p | p in paths && Supported(Extension(p)) ensures Kept(paths) != [] {
      KeptMembers(paths, p);
    }
  }

  /** Stacking two lists of tables one after the other stacks their rows one after the other. */
  lemma {:induction false} ConcatRecordsAppend(a: seq<Frame>, b: seq<Frame>)
    ensures Concat(a + b).records == Concat(a).records + Concat(b).records
    decreases |b|
  {
    if b == [] {
      assert a + b == a;
    } else {
      var init := b[..|b| - 1];
      ConcatRecordsAppend(a, init);
      assert (a + b)[..|a + b| - 1] == a + init;
      assert (a + b)[|a + b| - 1] == b[|b| - 1];
    }
  }

  /** The stacked table has as many rows as the tables together. */
  lemma {:induction false} ConcatRowCount(frames: seq<Frame>)
    ensures |Concat(frames).records| == RowCount(frames)
    decreases |frames|
  {
    if frames != [] {
      ConcatRowCount(frames[..|frames| - 1]);
    }
  }

  /** The new columns are exactly the names found in either list, the first list kept in front. */
  lemma {:induction false} AddColumnsMembers(cols: seq<string>, more: seq<string>, x: string)
    ensures var c := AddColumns(cols, more);
            |c| >= |cols| && c[..|cols|] == cols && (x in c <==> x in cols || x in more)
    decreases |more|
  {
    if more != [] {
      var init := more[..|more| - 1];
      AddColumnsMembers(cols, init, x);
      var c := AddColumns(cols, init);
      assert (c + [more[|more| - 1]])[..|cols|] == c[..|cols|];
      assert x in more <==> x in init || x == more[|more| - 1] by {
        assert more == init + [more[|more| - 1]];
      }
    }
  }

  /** A column of the stacked table is a column of one of the tables, and every such column is there. */
  lemma {:induction false} ConcatColumns(frames: seq<Frame>, x: string)
    ensures x in Concat(frames).columns <==> exists k :: 0 <= k < |frames| && x in frames[k].columns
    decreases |frames|
  {
    if frames != [] {
      var init := frames[..|frames| - 1];
      var last := frames[|frames| - 1];
      ConcatColumns(init, x);
      AddColumnsMembers(Concat(init).columns, last.columns, x);
      if exists k :: 0 <= k < |frames| && x in frames[k].columns {
        var k :| 0 <= k < |frames| && x in frames[k].columns;
        if k < |init| {
          assert init[k] == frames[k];
        }
      }
      if exists k :: 0 <= k < |init| && x in init[k].columns {
        var k :| 0 <= k < |init| && x in init[k].columns;
        assert frames[k] == init[k];
      }
    }
  }

  /** The cells of one row in the order of `columns`; a missing value is an empty cell. */
  function Cells(columns: seq<string>, rec: map<string, string>): (cells: seq<string>)
    ensures |cells| == |columns|
  {
    seq(|columns|, j requires 0 <= j < |columns| => if columns[j] in rec then rec[columns[j]] else "")
  }

  /** `to_excel(index=False)`: the header row, then one row per record. */
  function SheetOf(f: Frame): Content
  {
    Sheet([f.columns] + seq(|f.records|, i requires 0 <= i < |f.records| => Cells(f.columns, f.records[i])))
  }

  /** `os.path.join(input_dir, f"output_{timestamp}.xlsx")`. */
  function OutputFilePath(inputDir: string, timestamp: string): (path: string)
    ensures |path| >= 5 && path[|path| - 5..] == ".xlsx"
  {
    Join(inputDir, OutputName(timestamp))
  }

  /**
   * The output file is named after the timestamp inside the input directory,
   * and its extension is xlsx, so a later run over the same directory reads it too.
   */
  lemma OutputFilePathShape(inputDir: string, timestamp: string)
    requires '/' !in timestamp
    ensures Basename(OutputFilePath(inputDir, timestamp)) == "output_" + timestamp + ".xlsx"
    ensures CanonicalDir(inputDir) ==> Dirname(OutputFilePath(inputDir, timestamp)) == inputDir
    ensures Supported(Extension(OutputFilePath(inputDir, timestamp)))
  {
    var name := OutputName(timestamp);
    OutputNameIsPlain(timestamp);
    BasenameOfJoin(inputDir, name);
    if CanonicalDir(inputDir) {
      DirnameOfJoin(inputDir, name);
    }
    OutputExtension(OutputFilePath(inputDir, timestamp), timestamp);
  }

  function OutputName(timestamp: string): string
  {
    "output_" + timestamp + ".xlsx"
  }

  lemma OutputNameIsPlain(timestamp: string)
    requires '/' !in timestamp
    ensures OutputName(timestamp) != "" && '/' !in OutputName(timestamp)
  {
    var name := OutputName(timestamp);
    assert name[0] == 'o';
    forall i | 0 <= i < |name| ensures name[i] != '/' {
      if 7 <= i < 7 + |timestamp| {
        assert name[i] == timestamp[i - 7];
      }
    }
  }

  lemma OutputExtension(path: string, timestamp: string)
    requires |path| >= 5 && path[|path| - 5..] == ".xlsx"
    ensures Supported(Extension(path))
  {
    var stem := path[..|path| - 5];
    assert path == stem + "." + "xlsx";
    ExtensionAfterLastDot(stem, "xlsx");
    assert Lower("xlsx") == "xlsx";
  }

  /** The paths `get_file_paths` returns: each listed name joined onto the directory, when that is a file. */
  function FilePaths(dir: string, listing: seq<string>, files: map<string, Content>): seq<string>
    decreases |listing|
  {
    if listing == [] then []
    else
      var path := Join(dir, listing[|listing| - 1]);
      FilePaths(dir, listing[..|listing| - 1], files) + (if path in files then [path] else [])
  }

  /** A returned path is a file named by the listing, and every such file is returned. */
  lemma {:induction false} FilePathsMembers(dir: string, listing: seq<string>, files: map<string, Content>, p: string)
    ensures p in FilePaths(dir, listing, files) <==> p in files && exists name :: name in listing && Join(dir, name) == p
    decreases |listing|
  {
    if listing != [] {
      var init := listing[..|listing| - 1];
      var last := listing[|listing| - 1];
      FilePathsMembers(dir, init, files, p);
      assert listing == init + [last];
      if exists name :: name in listing && Join(dir, name) == p {
        var name :| name in listing && Join(dir, name) == p;
        if name != last {
          assert name in init;
        }
      }
    }
  }

  class FileCombineTask {
    var inputDir: Option<string>
    var outputFile: Option<string>

    constructor()
      ensures inputDir.None? && outputFile.None?
    {
      inputDir := None;
      outputFile := None;
    }

    /**
     * `get_params` with the typed directory `line`: the directory is stored,
     * then a path that is not a directory is a ValueError before any output
     * path is set; otherwise the output path is named after `timestamp`.
     */
    method GetParams(fs: FileSystem, line: string, timestamp: string) returns (r: Result<()>)
      modifies this
      ensures inputDir == Some(line)
      ensures line !in fs.dirs ==> r == Err(ValueError) && outputFile == old(outputFile)
      ensures line in fs.dirs ==> r == Ok(()) && outputFile == Some(OutputFilePath(line, timestamp))
    {
      inputDir := Some(line);
      if line !in fs.dirs {
        return Err(ValueError);
      }
      outputFile := Some(Join(line, OutputName(timestamp)));
      r := Ok(());
    }

    /** `get_file_paths`, given `os.listdir(input_dir)`: the listed names that are files, joined onto the directory. */
    method GetFilePaths(fs: FileSystem, listing: seq<string>) returns (paths: seq<string>)
      requires inputDir.Some?
      ensures paths == FilePaths(inputDir.value, listing, fs.files)
    {
      paths := [];
      var i := 0;
      while i < |listing|
        invariant i <= |listing|
        invariant paths == FilePaths(inputDir.value, listing[..i], fs.files)
      {
        var path := Join(inputDir.value, listing[i]);
        assert listing[..i + 1][..i] == listing[..i];
        if path in fs.files {
          paths := paths + [path];
        }
        i := i + 1;
      }
      assert listing[..i] == listing;
    }

    /** `combine_files`: reads the paths with a supported extension in order and stacks their tables. */
    method CombineFiles(paths: seq<string>, read: string -> Frame) returns (r: Result<Frame>)
      ensures r == Combined(paths, read)
    {
      var dfs: seq<Frame> := [];
      var i := 0;
      while i < |paths|
        invariant i <= |paths|
        invariant dfs == ReadAll(Kept(paths[..i]), read)
      {
        var extension := Extension(paths[i]);
        KeptStep(paths, i);
        if Supported(extension) {
          ReadAllAppend(Kept(paths[..i]), paths[i], read);
          dfs := dfs + [read(paths[i])];
        }
        i := i + 1;
      }
      assert paths[..i] == paths;
      if dfs == [] {
        return Err(ValueError);
      }
      r := Ok(Concat(dfs));
    }

    /**
     * `execute` after a successful `get_params`: the stacked table of the
     * directory's CSV and XLSX files is written to the output path; with no
     * such file pandas raises ValueError and nothing is written.
     */
    method Execute(fs: FileSystem, listing: seq<string>, read: string -> Frame) returns (r: Result<Frame>)
      requires inputDir.Some? && outputFile.Some?
      modifies fs
      ensures r == Combined(FilePaths(inputDir.value, listing, old(fs.files)), read)
      ensures fs.dirs == old(fs.dirs)
      ensures fs.files == if r.Ok? then old(fs.files)[outputFile.value := SheetOf(r.value)] else old(fs.files)
    {
      var filePaths := GetFilePaths(fs, listing);
      r := CombineFiles(filePaths, read);
      if r.Ok? {
        fs.Write(outputFile.value, SheetOf(r.value));
      }
    }
  }
}
