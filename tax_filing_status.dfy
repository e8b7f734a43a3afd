/**
 * The tax filing status task: for every CSV or XLSX file of a directory,
 * one output row per GSTIN combining the taxpayer record with the filing
 * record of the chosen return period. API replies are inputs.
 */
module TaxFilingStatus {
  import opened Common
  import opened Text
  import opened Paths
  import opened Disk

  /** A JSON object of the API's `data`, with string values. */
  type Record = map<string, string>

  /** One filing entry matches when it has a return_period equal to the period. */
  predicate Matches(entry: Record, period: string)
  {
    "return_period" in entry && entry["return_period"] == period
  }

  /** An entry that the search passes over: it has a return_period and it differs. */
  predicate Passes(entry: Record, period: string)
  {
    "return_period" in entry && entry["return_period"] != period
  }

  /** The record used when no entry is for the period: both returns shown as "-". */
  function DefaultFiling(period: string): (r: Record)
    ensures Matches(r, period)
    ensures "gstr1" in r && r["gstr1"] == "-" && "gstr3b" in r && r["gstr3b"] == "-"
  {
    map["return_period" := period, "gstr1" := "-", "gstr3b" := "-"]
  }

  /**
   * `get_filing_data`: the first entry whose return_period is the period, or
   * the default record; an entry without return_period reached before any
   * match raises KeyError.
   */
  function GetFilingData(data: seq<Record>, period: string): (r: Result<Record>)
    ensures r.Ok? ==> Matches(r.value, period)
    ensures r.Ok? ==> r.value in data || r.value == DefaultFiling(period)
    ensures r.Err? ==> r.error == KeyError
  {
    if data == [] then Ok(DefaultFiling(period))
    else if "return_period" !in data[0] then Err(KeyError)
    else if data[0]["return_period"] == period then Ok(data[0])
    else GetFilingData(data[1..], period)
  }

  /** After entries that are passed over, the entry at `i` decides: its own record, or KeyError. */
  lemma {:induction false} FilingFirstMatch(data: seq<Record>, period: string, i: nat)
    requires i < |data| && forall j :: 0 <= j < i ==> Passes(data[j], period)
    ensures Matches(data[i], period) ==> GetFilingData(data, period) == Ok(data[i])
    ensures "return_period" !in data[i] ==> GetFilingData(data, period) == Err(KeyError)
  {
    if i > 0 {
      assert Passes(data[0], period);
      assert forall j :: 0 <= j < i - 1 ==> data[1..][j] == data[j + 1];
      FilingFirstMatch(data[1..], period, i - 1);
    }
  }

  /** With every entry passed over, the default record is returned. */
  lemma {:induction false} FilingDefault(data: seq<Record>, period: string)
    requires forall j :: 0 <= j < |data| ==> Passes(data[j], period)
    ensures GetFilingData(data, period) == Ok(DefaultFiling(period))
  {
    if data != [] {
      assert Passes(data[0], period);
      assert forall j :: 0 <= j < |data| - 1 ==> data[1..][j] == data[j + 1];
      FilingDefault(data[1..], period);
    }
  }

  /** One output row: six taxpayer fields and three filing fields. */
  datatype FilingRow = FilingRow(gstin: string, tradeName: string, legalName: string, status: string,
                                 businessType: string, registrationDate: string,
                                 returnPeriod: string, gstr1: string, gstr3b: string)

  /** The output columns, in the order the row dictionary lists them. */
  const RowColumns: seq<string> := ["gstin", "trade_name", "legal_name", "status", "business_type",
                                    "registration_date", "return_period", "gstr1", "gstr3b"]

  /** A row's cells in the order of `RowColumns`. */
  function Cells(row: FilingRow): (cells: seq<string>)
    ensures |cells| == |RowColumns|
  {
    [row.gstin, row.tradeName, row.legalName, row.status, row.businessType, row.registrationDate,
     row.returnPeriod, row.gstr1, row.gstr3b]
  }

  predicate HasTaxPayerKeys(tp: Record)
  {
    "gstin" in tp && "trade_name" in tp && "legal_name" in tp && "status" in tp
    && "business_type" in tp && "registration_date" in tp
  }

  /**
   * `get_row_data`: the six taxpayer fields and the filing record's three
   * fields; any missing key raises KeyError.
   */
  function GetRowData(tp: Record, filingData: seq<Record>, period: string): (r: Result<FilingRow>)
    ensures r.Ok? <==> HasTaxPayerKeys(tp) && GetFilingData(filingData, period).Ok?
                       && "gstr1" in GetFilingData(filingData, period).value
                       && "gstr3b" in GetFilingData(filingData, period).value
    ensures r.Err? ==> r.error == KeyError
    ensures r.Ok? ==> r.value.returnPeriod == period
    ensures r.Ok? ==> r.value.gstin == tp["gstin"] && r.value.tradeName == tp["trade_name"]
                      && r.value.legalName == tp["legal_name"] && r.value.status == tp["status"]
                      && r.value.businessType == tp["business_type"]
                      && r.value.registrationDate == tp["registration_date"]
    ensures r.Ok? ==> var f := GetFilingData(filingData, period).value;
                      r.value.gstr1 == f["gstr1"] && r.value.gstr3b == f["gstr3b"]
  {
    var filing := GetFilingData(filingData, period);
    if filing.Err? then Err(filing.error)
    else if !HasTaxPayerKeys(tp) || "gstr1" !in filing.value || "gstr3b" !in filing.value then Err(KeyError)
    else
      var f := filing.value;
      Ok(FilingRow(tp["gstin"], tp["trade_name"], tp["legal_name"], tp["status"], tp["business_type"],
                   tp["registration_date"], f["return_period"], f["gstr1"], f["gstr3b"]))
  }

  /** A table read from an input file: column headings and rows of cells. */
  datatype Table = Table(columns: seq<string>, rows: seq<seq<string>>)

  predicate Rectangular(t: Table)
  {
    forall i :: 0 <= i < |t.rows| ==> |t.rows[i]| == |t.columns|
  }

  /** The first column whose lower-cased heading is "gstin". */
  function GstinColumn(columns: seq<string>): (k: Option<nat>)
    ensures k.Some? ==> k.value < |columns|
  {
    if columns == [] then None
    else if Lower(columns[0]) == "gstin" then Some(0)
    else match GstinColumn(columns[1..]) {
      case None => None
      case Some(k) => Some(k + 1)
    }
  }

  /** The column found is the first whose heading lower-cases to "gstin"; none is found only when there is none. */
  lemma {:induction false} GstinColumnFirst(columns: seq<string>)
    ensures var k := GstinColumn(columns);
            (k.Some? ==> Lower(columns[k.value]) == "gstin"
                         && forall j :: 0 <= j < k.value ==> Lower(columns[j]) != "gstin")
            && (k.None? ==> forall j :: 0 <= j < |columns| ==> Lower(columns[j]) != "gstin")
  {
    if columns != [] && Lower(columns[0]) != "gstin" {
      GstinColumnFirst(columns[1..]);
      assert forall j :: 1 <= j < |columns| ==> columns[1..][j - 1] == columns[j];
    }
  }

  /** `get_gstins`: the cells of the first "gstin" column, or ValidationError. */
  function GetGstins(t: Table): (r: Result<seq<string>>)
    requires Rectangular(t)
    ensures r.Err? <==> GstinColumn(t.columns).None?
    ensures r.Err? ==> r.error == ValidationError
    ensures r.Ok? ==> |r.value| == |t.rows|
  {
    match GstinColumn(t.columns) {
      case None => Err(ValidationError)
      case Some(k) => Ok(seq(|t.rows|, i requires 0 <= i < |t.rows| => t.rows[i][k]))
    }
  }

  /**
   * The GSTINs are read from the first column headed "gstin" in any case,
   * row by row; without such a column the file is rejected.
   */
  lemma GetGstinsColumn(t: Table)
    requires Rectangular(t)
    ensures GetGstins(t).Err? <==> forall j :: 0 <= j < |t.columns| ==> Lower(t.columns[j]) != "gstin"
    ensures GetGstins(t).Ok? ==>
              var k := GstinColumn(t.columns).value;
              Lower(t.columns[k]) == "gstin" && (forall j :: 0 <= j < k ==> Lower(t.columns[j]) != "gstin")
              && forall i :: 0 <= i < |t.rows| ==> GetGstins(t).value[i] == t.rows[i][k]
  {
    GstinColumnFirst(t.columns);
  }

  /** `generate_output_file_path`: `<dir>/output/<stem>_output<ext>`. */
  function OutputFilePath(directoryPath: string, fileName: string): string
  {
    var parts := Splitext(Basename(fileName));
    Join(Join(directoryPath, "output"), parts.0 + "_output" + parts.1)
  }

  /** The output file lies in the output directory and keeps the input's stem and extension. */
  lemma OutputFilePathParts(directoryPath: string, fileName: string)
    ensures Dirname(OutputFilePath(directoryPath, fileName)) == Join(directoryPath, "output")
    ensures var parts := Splitext(Basename(fileName));
            Basename(OutputFilePath(directoryPath, fileName)) == parts.0 + "_output" + parts.1
  {
    var parts := Splitext(Basename(fileName));
    var name := parts.0 + "_output" + parts.1;
    StemHasNoSlash(fileName);
    SplitextParts(Basename(fileName));
    assert '/' !in name by {
      forall j | 0 <= j < |name| ensures name[j] != '/' {
        if j < |parts.0| {
          assert name[j] == parts.0[j];
        } else if j < |parts.0| + 7 {
          assert name[j] == "_output"[j - |parts.0|];
        } else {
          assert name[j] == parts.1[j - |parts.0| - 7];
        }
      }
    }
    var out := Join(directoryPath, "output");
    assert out[|out| - 1] == 't';
    DirnameOfJoin(out, name);
    BasenameOfJoin(out, name);
  }

  /** The reader class chosen by the upper-cased extension. */
  datatype FileKind = CsvKind | ExcelKind

  datatype InputFile = InputFile(kind: FileKind, path: string)

  /** `FILE_CLASSES.get(extension)`: "CSV" and "XLSX" are supported. */
  function KindOf(extension: string): Option<FileKind>
  {
    if extension == "CSV" then Some(CsvKind)
    else if extension == "XLSX" then Some(ExcelKind)
    else None
  }

  /** `filename.split(".")[-1].upper()`. */
  function Extension(fileName: string): string
  {
    Upper(LastSegment(fileName, '.'))
  }

  /** The input file a listed name gives: a supported extension and an existing file, or nothing. */
  function Admitted(dir: string, isFile: set<string>, name: string): seq<InputFile>
  {
    var kind := KindOf(Extension(name));
    if kind.Some? && Join(dir, name) in isFile then [InputFile(kind.value, Join(dir, name))] else []
  }

  /** The listing entries kept as input files, in listing order. */
  function InputFiles(dir: string, listing: seq<string>, isFile: set<string>): (r: seq<InputFile>)
    ensures |r| <= |listing|
  {
    if listing == [] then []
    else InputFiles(dir, listing[..|listing| - 1], isFile) + Admitted(dir, isFile, listing[|listing| - 1])
  }

  /** Listing one more name keeps what was kept before, then what that name yields. */
  lemma InputFilesSnoc(dir: string, listing: seq<string>, isFile: set<string>, name: string)
    ensures InputFiles(dir, listing + [name], isFile) == InputFiles(dir, listing, isFile) + Admitted(dir, isFile, name)
  {
    assert (listing + [name])[..|listing|] == listing;
  }

  /** The files kept from the first `i + 1` names: those kept from the first `i`, then what name `i` yields. */
  lemma InputFilesPrefix(dir: string, listing: seq<string>, isFile: set<string>, i: nat)
    requires i < |listing|
    ensures InputFiles(dir, listing[..i + 1], isFile) == InputFiles(dir, listing[..i], isFile) + Admitted(dir, isFile, listing[i])
  {
    assert listing[..i + 1] == listing[..i] + [listing[i]];
    InputFilesSnoc(dir, listing[..i], isFile, listing[i]);
  }

  /** The listed name `name` yields the input file `f`. */
  predicate Yields(dir: string, isFile: set<string>, name: string, f: InputFile)
  {
    KindOf(Extension(name)) == Some(f.kind) && f.path == Join(dir, name) && f.path in isFile
  }

  lemma AdmittedYields(dir: string, isFile: set<string>, name: string, f: InputFile)
    ensures f in Admitted(dir, isFile, name) <==> Yields(dir, isFile, name, f)
  {
  }

  /** A kept file is a listed name with a supported extension that is a file, read by its extension's class. */
  lemma {:induction false} InputFilesMembers(dir: string, listing: seq<string>, isFile: set<string>, f: InputFile)
    ensures f in InputFiles(dir, listing, isFile) <==> exists name :: name in listing && Yields(dir, isFile, name, f)
  {
    if listing != [] {
      var init, name := listing[..|listing| - 1], listing[|listing| - 1];
      assert listing == init + [name];
      InputFilesMembers(dir, init, isFile, f);
      AdmittedYields(dir, isFile, name, f);
      if f in InputFiles(dir, listing, isFile) && !Yields(dir, isFile, name, f) {
        var n :| n in init && Yields(dir, isFile, n, f);
        assert n in listing;
      }
      if exists n :: n in listing && Yields(dir, isFile, n, f) {
        var n :| n in listing && Yields(dir, isFile, n, f);
        if n != name {
          assert n in init;
        }
      }
    }
  }

  /** The API replies for one GSTIN: the taxpayer `data` and the filing `data.filing_data`. */
  datatype Reply = Reply(taxPayer: Record, filing: seq<Record>)

  /** The rows for the GSTINs, reply by reply; the first failing reply's KeyError ends the run. */
  function OutputRows(replies: seq<Reply>, period: string): (r: Result<seq<FilingRow>>)
    ensures r.Ok? ==> |r.value| == |replies|
    ensures r.Err? ==> r.error == KeyError
  {
    if replies == [] then Ok([])
    else
      var row := GetRowData(replies[0].taxPayer, replies[0].filing, period);
      var rest := OutputRows(replies[1..], period);
      if row.Err? then Err(row.error)
      else if rest.Err? then rest
      else Ok([row.value] + rest.value)
  }

  /** The rows of `data` put before an outcome, which stays an error if it is one. */
  function Prepend(data: seq<FilingRow>, r: Result<seq<FilingRow>>): Result<seq<FilingRow>>
  {
    if r.Err? then r else Ok(data + r.value)
  }

  /** One more reply whose row succeeds moves that row from the outcome to the rows collected. */
  lemma OutputRowsStep(replies: seq<Reply>, i: nat, period: string, data: seq<FilingRow>, row: FilingRow)
    requires i < |replies|
    requires GetRowData(replies[i].taxPayer, replies[i].filing, period) == Ok(row)
    ensures Prepend(data, OutputRows(replies[i..], period)) == Prepend(data + [row], OutputRows(replies[i + 1..], period))
  {
    assert replies[i..][1..] == replies[i + 1..];
    var rest := OutputRows(replies[i + 1..], period);
    if rest.Ok? {
      assert data + ([row] + rest.value) == (data + [row]) + rest.value;
    }
  }

  /** A reply whose row fails makes the whole outcome that KeyError. */
  lemma OutputRowsStop(replies: seq<Reply>, i: nat, period: string, data: seq<FilingRow>)
    requires i < |replies|
    requires GetRowData(replies[i].taxPayer, replies[i].filing, period).Err?
    ensures Prepend(data, OutputRows(replies[i..], period)) == Err(KeyError)
  {
    assert replies[i..][0] == replies[i];
  }

  /** Row i is the row data of reply i; the run fails exactly when some reply's row fails. */
  lemma {:induction false} OutputRowsInOrder(replies: seq<Reply>, period: string)
    ensures OutputRows(replies, period).Ok? <==>
              forall i :: 0 <= i < |replies| ==> GetRowData(replies[i].taxPayer, replies[i].filing, period).Ok?
    ensures OutputRows(replies, period).Ok? ==>
              forall i :: 0 <= i < |replies| ==>
                OutputRows(replies, period).value[i] == GetRowData(replies[i].taxPayer, replies[i].filing, period).value
  {
    if replies != [] {
      OutputRowsInOrder(replies[1..], period);
      assert forall i :: 1 <= i < |replies| ==> replies[1..][i - 1] == replies[i];
    }
  }

  /** The sheet `DataFrame(data).to_excel` writes: the headings then one line per row, or nothing for no rows. */
  function SheetOf(rows: seq<FilingRow>): (c: Content)
    ensures rows == [] ==> c == Sheet([])
    ensures rows != [] ==> c.Sheet? && |c.rows| == |rows| + 1 && c.rows[0] == RowColumns
                           && forall i :: 0 <= i < |rows| ==> c.rows[i + 1] == Cells(rows[i])
  {
    if rows == [] then Sheet([])
    else Sheet([RowColumns] + seq(|rows|, i requires 0 <= i < |rows| => Cells(rows[i])))
  }

  /** The per-GSTIN loop of `generate_output_file`: one row per reply, in order. */
  method CollectRows(replies: seq<Reply>, period: string) returns (r: Result<seq<FilingRow>>)
    ensures r == OutputRows(replies, period)
  {
    var data: seq<FilingRow> := [];
    assert replies[0..] == replies;
    var all := OutputRows(replies, period);
    assert Prepend(data, all) == all by {
      if all.Ok? { assert data + all.value == all.value; }
    }
    for i := 0 to |replies|
      invariant OutputRows(replies, period) == Prepend(data, OutputRows(replies[i..], period))
    {
      var row := GetRowData(replies[i].taxPayer, replies[i].filing, period);
      if row.Err? {
        OutputRowsStop(replies, i, period, data);
        return Err(row.error);
      }
      OutputRowsStep(replies, i, period, data, row.value);
      data := data + [row.value];
    }
    assert replies[|replies|..] == [];
    assert data + [] == data;
    r := Ok(data);
  }

  /** The outcome of reading a file's GSTINs and building their rows. */
  function FileOutcome(t: Table, replies: seq<Reply>, period: string): Result<seq<FilingRow>>
  {
    if GstinColumn(t.columns).None? then Err(ValidationError) else OutputRows(replies, period)
  }

  /**
   * The rows `generate_output_file` builds before writing: the GSTINs of the
   * file (ValidationError without a gstin column), then one row per reply.
   */
  method FileRows(t: Table, replies: seq<Reply>, period: string) returns (r: Result<seq<FilingRow>>)
    requires Rectangular(t)
    requires GstinColumn(t.columns).Some? ==> |replies| == |t.rows|
    ensures r == FileOutcome(t, replies, period)
  {
    var gstins := GetGstins(t);
    if gstins.Err? {
      return Err(gstins.error);
    }
    r := CollectRows(replies, period);
  }

  /** The task's state after `get_params` and `prepare_output_directory`. */
  class TaxFilingStatusTask {
    var directoryPath: string
    var filingPeriod: string
    var outputDir: string

    /** The directory and the period (already converted to "Mon YYYY") as `get_params` leaves them. */
    constructor(directoryPath0: string, filingPeriod0: string)
      ensures directoryPath == directoryPath0 && filingPeriod == filingPeriod0 && outputDir == ""
    {
      directoryPath := directoryPath0;
      filingPeriod := filingPeriod0;
      outputDir := "";
    }

    /** `prepare_output_directory`: `<dir>/output`, created when missing. */
    method PrepareOutputDirectory(fs: FileSystem)
      modifies this, fs
      ensures directoryPath == old(directoryPath) && filingPeriod == old(filingPeriod)
      ensures outputDir == Join(directoryPath, "output")
      ensures fs.files == old(fs.files)
      ensures fs.dirs == AfterMakeDirs(old(fs.dirs), old(fs.files), [outputDir])
    {
      outputDir := Join(directoryPath, "output");
      fs.MakeDirsIfMissing(outputDir);
    }

    /**
     * One pass of `get_input_files`' loop: a name whose extension is not
     * supported, or whose path is not a file, is skipped; otherwise it is
     * read by its extension's class.
     */
    method AdmitEntry(name: string, isFile: set<string>) returns (entry: Option<InputFile>)
      ensures (if entry.Some? then [entry.value] else []) == Admitted(directoryPath, isFile, name)
    {
      var extension := Extension(name);
      var kind := KindOf(extension);
      if kind.None? {
        return None;
      }
      var path := Join(directoryPath, name);
      if path !in isFile {
        return None;
      }
      return Some(InputFile(kind.value, path));
    }

    /**
     * `get_input_files`: nothing when the path is not a directory; otherwise
     * the listed names with extension CSV or XLSX (any case) that are files.
     */
    method GetInputFiles(isDir: bool, listing: seq<string>, isFile: set<string>) returns (files: seq<InputFile>)
      ensures files == if isDir then InputFiles(directoryPath, listing, isFile) else []
    {
      files := [];
      if !isDir {
        return;
      }
      var i := 0;
      while i < |listing|
        invariant 0 <= i <= |listing|
        invariant files == InputFiles(directoryPath, listing[..i], isFile)
      {
        var entry := AdmitEntry(listing[i], isFile);
        if entry.Some? {
          files := files + [entry.value];
        }
        InputFilesPrefix(directoryPath, listing, isFile, i);
        assert files == InputFiles(directoryPath, listing[..i + 1], isFile);
        i := i + 1;
      }
      assert listing[..i] == listing;
    }

    /**
     * `generate_output_file`: reads the GSTINs, builds one row per GSTIN from
     * its replies in input order, and writes the sheet to the output path; an
     * exception leaves the filesystem unchanged.
     */
    method GenerateOutputFile(fs: FileSystem, input: InputFile, t: Table, replies: seq<Reply>)
      returns (r: Result<seq<FilingRow>>)
      requires Rectangular(t)
      requires GstinColumn(t.columns).Some? ==> |replies| == |t.rows|
      modifies fs
      ensures r == FileOutcome(t, replies, old(filingPeriod))
      ensures fs.files == if r.Ok? then old(fs.files)[OutputFilePath(old(directoryPath), input.path) := SheetOf(r.value)]
                          else old(fs.files)
      ensures fs.dirs == old(fs.dirs)
    {
      r := FileRows(t, replies, filingPeriod);
      if r.Ok? {
        fs.Write(OutputFilePath(directoryPath, input.path), SheetOf(r.value));
      }
    }
  }
}
