/**
 * The second version of the pre-registration task: duplicate reports with a
 * single trailing separator, phone-number normalisation to the +91 form, the
 * per-input working directories, and the name of the downloaded result.
 */
module PreRegisterV2 {
  import opened Common
  import opened Paths
  import opened Frames
  import opened PreRegister
  import opened Disk

  /** `update_phone_number`: adds the Indian country code to a bare number. */
  function UpdatePhoneNumber(phone: string): (r: string)
    ensures |phone| == 12 && phone[..2] == "91" ==> r == "+" + phone
    ensures |phone| == 10 && phone[..3] != "+91" ==> r == "+91" + phone
    ensures !(|phone| == 12 && phone[..2] == "91") && !(|phone| == 10 && phone[..3] != "+91")
            ==> r == phone
  {
    if |phone| >= 2 && phone[..2] == "91" && |phone| == 12 then "+" + phone
    else if !(|phone| >= 3 && phone[..3] == "+91") && |phone| == 10 then "+91" + phone
    else phone
  }

  /** A changed number is the 13-character `+91` form ending in the original digits. */
  lemma UpdatedNumberShape(phone: string)
    ensures var r := UpdatePhoneNumber(phone);
            r != phone ==> |r| == 13 && r[..3] == "+91" && r[13 - |phone|..] == phone
  {
    var r := UpdatePhoneNumber(phone);
    if |phone| == 12 && phone[..2] == "91" {
      assert r[..3] == "+" + phone[..2];
    }
  }

  /** Normalising twice is normalising once. */
  lemma UpdatePhoneNumberIdempotent(phone: string)
    ensures UpdatePhoneNumber(UpdatePhoneNumber(phone)) == UpdatePhoneNumber(phone)
  {
    UpdatedNumberShape(phone);
  }

  /** A phone cell after `update_phone_number`; a missing number stays missing. */
  function UpdatePhoneCell(cell: Cell): Cell
  {
    match cell
    case Missing => Missing
    case Value(phone) => Value(UpdatePhoneNumber(phone))
  }

  /** The table with every phone number normalised, other cells untouched. */
  function NormalizedPhones(s: seq<Row>): (r: seq<Row>)
    ensures |r| == |s|
  {
    seq(|s|, i requires 0 <= i < |s| => s[i].(phoneNumber := UpdatePhoneCell(s[i].phoneNumber)))
  }

  lemma NormalizedPhonesIdempotent(s: seq<Row>)
    ensures NormalizedPhones(NormalizedPhones(s)) == NormalizedPhones(s)
  {
    forall i | 0 <= i < |s| && s[i].phoneNumber.Value? {
      UpdatePhoneNumberIdempotent(s[i].phoneNumber.text);
    }
  }

  /**
   * `save_df_to_excel`, before the workbook is written: overwrites the
   * phone_number column of the table in place with the normalised numbers.
   */
  method NormalizePhoneColumn(a: array<Row>)
    modifies a
    ensures a[..] == NormalizedPhones(old(a[..]))
  {
    var i := 0;
    while i < a.Length
      invariant 0 <= i <= a.Length
      invariant a[..i] == NormalizedPhones(old(a[..]))[..i]
      invariant a[i..] == old(a[..])[i..]
    {
      a[i] := a[i].(phoneNumber := UpdatePhoneCell(a[i].phoneNumber));
      i := i + 1;
    }
  }

  /**
   * `create_duplicate_dfs` (second version): the rows whose key repeats,
   * sorted by the key, projected to gstin, phone_number, name and email, and
   * one all-`---` row appended even when there are no duplicates.
   */
  function DuplicateReportV2(df: seq<Row>, c: Column): (r: Report)
    ensures r.columns == ProjectedColumns
    ensures |r.rows| >= 1 && r.rows[|r.rows| - 1] == Separator
    ensures forall i :: 0 <= i < |r.rows| - 1 ==> r.rows[i].Entry?
  {
    var dups := ProjectAll(SortByKey(Duplicated(df, c), c));
    Report(ProjectedColumns, Entries(dups) + [Separator])
  }

  /** Each row as a report entry. */
  function Entries(s: seq<Row>): (rows: seq<ReportRow>)
    ensures |rows| == |s| && forall i :: 0 <= i < |s| ==> rows[i] == Entry(s[i])
  {
    seq(|s|, i requires 0 <= i < |s| => Entry(s[i]))
  }

  lemma {:induction false} RecordsOfEntries(s: seq<Row>)
    ensures Records(Entries(s)) == s
  {
    if s != [] {
      var n := |s| - 1;
      assert Entries(s)[..n] == Entries(s[..n]);
      RecordsOfEntries(s[..n]);
      assert s[..n] + [s[n]] == s;
    }
  }

  /** Projection keeps the keys, so it commutes with the key sort. */
  lemma {:induction false} InsertProject(x: Row, s: seq<Row>, c: Column)
    ensures ProjectAll(Insert(x, s, c)) == Insert(Project(x), ProjectAll(s), c)
  {
    if s != [] {
      assert ProjectAll(s)[0] == Project(s[0]) && ProjectAll(s)[1..] == ProjectAll(s[1..]);
      if !CellLe(Key(x, c), Key(s[0], c)) {
        InsertProject(x, s[1..], c);
        assert ProjectAll([s[0]] + Insert(x, s[1..], c)) == [Project(s[0])] + ProjectAll(Insert(x, s[1..], c));
      } else {
        assert ProjectAll([x] + s) == [Project(x)] + ProjectAll(s);
      }
    }
  }

  lemma {:induction false} SortProject(s: seq<Row>, c: Column)
    ensures ProjectAll(SortByKey(s, c)) == SortByKey(ProjectAll(s), c)
  {
    if s != [] {
      SortProject(s[1..], c);
      InsertProject(s[0], SortByKey(s[1..], c), c);
      assert ProjectAll(s)[0] == Project(s[0]) && ProjectAll(s)[1..] == ProjectAll(s[1..]);
    }
  }

  /**
   * The report's records are the projected duplicates, sorted by the key, as
   * a permutation; and a row appears (projected) exactly when its key repeats.
   */
  lemma DuplicateReportV2Contents(df: seq<Row>, c: Column, x: Row)
    ensures var recs := Records(DuplicateReportV2(df, c).rows);
            SortedBy(recs, c)
            && multiset(recs) == multiset(ProjectAll(Duplicated(df, c)))
            && (Project(x) in recs <==>
                  exists y :: y in df && Project(y) == Project(x) && Occurrences(df, c, Key(y, c)) >= 2)
  {
    var d := Duplicated(df, c);
    var recsRows := Entries(ProjectAll(SortByKey(d, c)));
    RecordsSnoc(recsRows, Separator);
    RecordsOfEntries(ProjectAll(SortByKey(d, c)));
    SortProject(d, c);
    SortByKeySortedPermutation(ProjectAll(d), c);
    ProjectedDuplicates(df, c, x);
    assert Project(x) in ProjectAll(d) <==> Project(x) in multiset(ProjectAll(d));
  }

  /** `clean_file` (second version): the input table unfiltered, and the two reports. */
  function CleanFileV2(df: seq<Row>): (r: (seq<Row>, Report, Report))
    ensures r.0 == df
    ensures r.1 == DuplicateReportV2(df, Gstin) && r.2 == DuplicateReportV2(df, PhoneNumber)
  {
    (df, DuplicateReportV2(df, Gstin), DuplicateReportV2(df, PhoneNumber))
  }

  /** The working directory of an input file: its path without the extension. */
  function InputDir(inputPath: string): string
  {
    Join(Dirname(inputPath), Stem(inputPath))
  }

  /** The working directory sits beside the input file and is named after its stem. */
  lemma InputDirBesideInput(inputPath: string)
    requires Basename(inputPath) != ""
    ensures Dirname(InputDir(inputPath)) == Dirname(inputPath)
    ensures Basename(InputDir(inputPath)) == Stem(inputPath)
    ensures CanonicalDir(InputDir(inputPath))
  {
    StemNonEmpty(inputPath);
    StemHasNoSlash(inputPath);
    SiblingPath(inputPath, Stem(inputPath));
    var d := InputDir(inputPath);
    var stem := Stem(inputPath);
    assert d[|d| - 1] == stem[|stem| - 1];
  }

  /** The four working sub-directories are children of the working directory. */
  lemma WorkDirsAreChildren(inputPath: string, name: string)
    requires Basename(inputPath) != ""
    requires name != "" && '/' !in name
    ensures Dirname(Join(InputDir(inputPath), name)) == InputDir(inputPath)
    ensures Basename(Join(InputDir(inputPath), name)) == name
  {
    InputDirBesideInput(inputPath);
    DirnameOfJoin(InputDir(inputPath), name);
    BasenameOfJoin(InputDir(inputPath), name);
  }

  /** `str.replace(pat, rep)`: every non-overlapping occurrence, scanning left to right. */
  function ReplaceAll(s: string, pat: string, rep: string): string
    requires pat != ""
  {
    if |s| < |pat| then s
    else if s[..|pat|] == pat then rep + ReplaceAll(s[|pat|..], pat, rep)
    else [s[0]] + ReplaceAll(s[1..], pat, rep)
  }

  /** `pat` occurs in `s` starting at index `i`. */
  predicate MatchAt(pat: string, s: string, i: int)
  {
    0 <= i <= |s| - |pat| && s[i..i + |pat|] == pat
  }

  ghost predicate OccursIn(pat: string, s: string)
  {
    exists i :: MatchAt(pat, s, i)
  }

  /** A replacement of equal length keeps the length of the path. */
  lemma {:induction false} ReplaceAllLength(s: string, pat: string, rep: string)
    requires pat != "" && |rep| == |pat|
    ensures |ReplaceAll(s, pat, rep)| == |s|
    decreases |s|
  {
    if |s| >= |pat| {
      if s[..|pat|] == pat {
        ReplaceAllLength(s[|pat|..], pat, rep);
      } else {
        ReplaceAllLength(s[1..], pat, rep);
      }
    }
  }

  /** The path changes exactly when the pattern occurs in it (for a different replacement). */
  lemma {:induction false} ReplaceAllChangesIff(s: string, pat: string, rep: string)
    requires pat != "" && |rep| == |pat| && rep != pat
    ensures ReplaceAll(s, pat, rep) != s <==> OccursIn(pat, s)
    decreases |s|
  {
    if |s| < |pat| {
      assert !OccursIn(pat, s);
    } else if s[..|pat|] == pat {
      assert MatchAt(pat, s, 0);
      var r := ReplaceAll(s, pat, rep);
      assert r[..|pat|] == rep;
      assert r != s by { assert r[..|pat|] != s[..|pat|]; }
    } else {
      ReplaceAllChangesIff(s[1..], pat, rep);
      OccursInTail(s, pat);
      ReplaceAllStep(s, pat, rep);
    }
  }

  /** Without a match at the front, the occurrences of `pat` are those of the tail. */
  lemma OccursInTail(s: string, pat: string)
    requires pat != "" && |s| >= |pat| && s[..|pat|] != pat
    ensures OccursIn(pat, s) <==> OccursIn(pat, s[1..])
  {
    var t := s[1..];
    if OccursIn(pat, s) {
      var i :| MatchAt(pat, s, i);
      assert i > 0;
      assert t[i - 1..i - 1 + |pat|] == s[i..i + |pat|];
      assert MatchAt(pat, t, i - 1);
    }
    if OccursIn(pat, t) {
      var i :| MatchAt(pat, t, i);
      assert s[i + 1..i + 1 + |pat|] == t[i..i + |pat|];
      assert MatchAt(pat, s, i + 1);
    }
  }

  /** Without a match at the front, the first character is kept and the rest is rewritten. */
  lemma ReplaceAllStep(s: string, pat: string, rep: string)
    requires pat != "" && |s| >= |pat| && s[..|pat|] != pat
    ensures ReplaceAll(s, pat, rep) != s <==> ReplaceAll(s[1..], pat, rep) != s[1..]
  {
    assert ReplaceAll(s, pat, rep) == [s[0]] + ReplaceAll(s[1..], pat, rep);
    assert s == [s[0]] + s[1..];
  }

  /** `download_file`: the result is saved under the uploaded path with "unique" replaced by "output". */
  function DownloadPath(filePath: string): string
  {
    ReplaceAll(filePath, "unique", "output")
  }

  /**
   * No occurrence straddles a boundary whose next character is not in the
   * pattern, so the two sides are rewritten separately.
   */
  lemma {:induction false} ReplaceAllAppend(d: string, x: string, pat: string, rep: string)
    requires pat != "" && x != [] && x[0] !in pat
    ensures ReplaceAll(d + x, pat, rep) == ReplaceAll(d, pat, rep) + ReplaceAll(x, pat, rep)
    decreases |d|
  {
    var w := d + x;
    if d == [] {
      assert w == x;
    } else if |d| < |pat| {
      if |w| >= |pat| {
        NoMatchAcrossBoundary(d, x, pat);
        assert w[1..] == d[1..] + x;
        ReplaceAllAppend(d[1..], x, pat, rep);
        calc {
          ReplaceAll(w, pat, rep);
          [d[0]] + ReplaceAll(d[1..] + x, pat, rep);
          [d[0]] + (d[1..] + ReplaceAll(x, pat, rep));
          { assert [d[0]] + d[1..] == d; }
          d + ReplaceAll(x, pat, rep);
        }
      }
    } else {
      assert w[..|pat|] == d[..|pat|];
      if d[..|pat|] == pat {
        assert w[|pat|..] == d[|pat|..] + x;
        ReplaceAllAppend(d[|pat|..], x, pat, rep);
      } else {
        assert w[1..] == d[1..] + x;
        ReplaceAllAppend(d[1..], x, pat, rep);
      }
    }
  }

  /** A window that reaches past `d` into `x` holds `x[0]`, which the pattern lacks. */
  lemma NoMatchAcrossBoundary(d: string, x: string, pat: string)
    requires x != [] && x[0] !in pat && |d| < |pat| <= |d + x|
    ensures (d + x)[..|pat|] != pat
  {
    var w := (d + x)[..|pat|];
    assert w[|d|] == x[0];
    assert w[|d|] != pat[|d|];
  }

  /** A separator that is not part of the pattern is kept, and each side of it is rewritten on its own. */
  lemma ReplaceAllAroundSeparator(d: string, sep: char, n: string, pat: string, rep: string)
    requires pat != "" && sep !in pat
    ensures ReplaceAll(d + [sep] + n, pat, rep) == ReplaceAll(d, pat, rep) + [sep] + ReplaceAll(n, pat, rep)
  {
    var x := [sep] + n;
    assert d + [sep] + n == d + x;
    ReplaceAllAppend(d, x, pat, rep);
    if |x| >= |pat| {
      assert x[..|pat|] != pat by {
        assert x[..|pat|][0] == sep;
      }
      assert x[1..] == n;
    }
  }

  /**
   * The download path rewrites every component of the uploaded path on its
   * own, directories included: a directory named "unique" becomes "output".
   */
  lemma DownloadPathRewritesDirectories(d: string, n: string)
    ensures DownloadPath(d + "/" + n) == DownloadPath(d) + "/" + DownloadPath(n)
    ensures DownloadPath("unique/" + n) == "output/" + DownloadPath(n)
  {
    ReplaceAllAroundSeparator(d, '/', n, "unique", "output");
    ReplaceAllAroundSeparator("unique", '/', n, "unique", "output");
    assert "unique" + "/" + n == "unique/" + n;
    var u := "unique";
    assert u[..|u|] == u && u[|u|..] == [];
    assert DownloadPath("unique") == "output";
  }

  /** The task's state: the input path and the directories derived from it. */
  class PreRegisterTaskV2 {
    var inputPath: string
    var basename: string
    var inputDir: string
    var tempDir: string
    var failedDir: string
    var resultDir: string
    var processedDir: string

    constructor()
      ensures inputPath == "" && inputDir == ""
    {
      inputPath := "";
      basename := "";
      inputDir := "";
      tempDir := "";
      failedDir := "";
      resultDir := "";
      processedDir := "";
    }

    /**
     * `get_params`: reads paths until one names an existing file (`isfile`);
     * running out of input is the EOFError `input()` raises.
     */
    method GetParams(lines: seq<string>, existingFiles: set<string>) returns (r: Result<nat>)
      modifies this
      ensures r.Ok? ==> r.value < |lines| && lines[r.value] in existingFiles
                        && (forall j :: 0 <= j < r.value ==> lines[j] !in existingFiles)
                        && inputPath == lines[r.value]
                        && basename == Basename(inputPath) && inputDir == InputDir(inputPath)
      ensures r.Err? ==> r.error == EOFError && forall j :: 0 <= j < |lines| ==> lines[j] !in existingFiles
    {
      var k := 0;
      while k < |lines| && lines[k] !in existingFiles
        invariant 0 <= k <= |lines|
        invariant forall j :: 0 <= j < k ==> lines[j] !in existingFiles
      {
        k := k + 1;
      }
      if k == |lines| {
        return Err(EOFError);
      }
      inputPath := lines[k];
      basename := Basename(inputPath);
      inputDir := InputDir(inputPath);
      r := Ok(k);
    }

    /**
     * `prepare_directories`: names Temp, Failed, Result and Processed under
     * the working directory, then creates the missing ones in the order
     * Temp, Processed, Failed, Result.
     */
    method PrepareDirectories(fs: FileSystem)
      modifies this, fs
      ensures inputPath == old(inputPath) && inputDir == old(inputDir) && basename == old(basename)
      ensures tempDir == Join(inputDir, "Temp") && failedDir == Join(inputDir, "Failed")
      ensures resultDir == Join(inputDir, "Result") && processedDir == Join(inputDir, "Processed")
      ensures fs.files == old(fs.files)
      ensures fs.dirs == AfterMakeDirs(old(fs.dirs), old(fs.files), [tempDir, processedDir, failedDir, resultDir])
    {
      tempDir := Join(inputDir, "Temp");
      failedDir := Join(inputDir, "Failed");
      resultDir := Join(inputDir, "Result");
      processedDir := Join(inputDir, "Processed");
      var order := [tempDir, processedDir, failedDir, resultDir];
      for i := 0 to |order|
        invariant inputPath == old(inputPath) && inputDir == old(inputDir) && basename == old(basename)
        invariant tempDir == Join(inputDir, "Temp") && failedDir == Join(inputDir, "Failed")
        invariant resultDir == Join(inputDir, "Result") && processedDir == Join(inputDir, "Processed")
        invariant order == [tempDir, processedDir, failedDir, resultDir]
        invariant fs.files == old(fs.files)
        invariant AfterMakeDirs(fs.dirs, fs.files, order[i..]) == AfterMakeDirs(old(fs.dirs), old(fs.files), order)
      {
        fs.MakeDirsIfMissing(order[i]);
        assert order[i..][1..] == order[i + 1..];
      }
    }
  }
}
