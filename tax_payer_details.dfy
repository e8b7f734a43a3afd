/**
 * The taxpayer details task: reads GSTINs from the first column of a CSV or
 * Excel file, asks the taxpayer endpoint about each, and writes the selected
 * fields of every successful answer to `<stem>_output_<timestamp>.xlsx`
 * beside the input. Replies, the file's first column and the timestamp are
 * inputs.
 */
module TaxPayerDetails {
  import opened Common
  import opened Text
  import opened Paths
  import opened Disk

  /** The fields copied from a reply's `data`, in column order. */
  const OutputFields: seq<string> := [
    "date_of_cancellation", "last_updated_date", "registration_date", "state_jurisdiction_code",
    "business_type", "legal_name", "state_jurisdiction", "addresses", "gstin",
    "nature_of_business_activities", "constitution_of_business", "principal_place_of_business",
    "commissionerate_code", "trade_name", "status", "is_gstin_inactive", "commissionerate",
    "tax_payer_updated_at", "registration_date_formatted", "primary_address", "other_addresses"]

  /** A reply's `data` object; values are kept as strings. */
  type Data = map<string, string>

  /** The extracted details: every output field, None where `data.get` finds nothing. */
  type Details = map<string, Option<string>>

  /** `data.get(key)`. */
  function Get(data: Data, key: string): Option<string>
  {
    if key in data then Some(data[key]) else None
  }

  /** What `extract_taxpayer_details` returns, as a value. */
  function Extracted(data: Data): Details
  {
    map k | k in OutputFields :: Get(data, k)
  }

  /**
   * `extract_taxpayer_details`: fills the details field by field; the result
   * has exactly the output fields as keys, each holding `data.get(field)`.
   */
  method ExtractTaxpayerDetails(data: Data) returns (details: Details)
    ensures details == Extracted(data)
    ensures forall k :: k in details <==> k in OutputFields
    ensures forall k :: k in details ==> details[k] == Get(data, k)
  {
    details := map[];
    for i := 0 to |OutputFields|
      invariant details == map k | k in OutputFields[..i] :: Get(data, k)
    {
      var field := OutputFields[i];
      assert OutputFields[..i + 1] == OutputFields[..i] + [field];
      details := details[field := Get(data, field)];
    }
    assert OutputFields[..|OutputFields|] == OutputFields;
  }

  /** Keys of `data` outside the output fields never reach the details. */
  lemma ExtractedIgnoresOtherKeys(d1: Data, d2: Data)
    requires forall k :: k in OutputFields ==> Get(d1, k) == Get(d2, k)
    ensures Extracted(d1) == Extracted(d2)
  {
  }

  /** The answer for one GSTIN: an exception, or a JSON body with `success` (its truthiness) and `data`. */
  datatype Reply = Raised | Response(success: bool, data: Data)

  /** A reply that adds the GSTIN: truthy `success` and non-empty `data`. */
  predicate Accepted(r: Reply)
  {
    r.Response? && r.success && r.data != map[]
  }

  /** A Python dict: its values by key, and its keys in insertion order. */
  datatype Dict = Dict(order: seq<string>, values: map<string, Details>)

  /** The keys listed once each, and exactly the keys holding values. */
  ghost predicate Valid(d: Dict)
  {
    (forall i, j :: 0 <= i < j < |d.order| ==> d.order[i] != d.order[j])
    && forall k :: k in d.values <==> k in d.order
  }

  /** `d[k] = v`: an existing key keeps its position and gets the new value; a new key goes last. */
  function Put(d: Dict, k: string, v: Details): (r: Dict)
    requires Valid(d)
    ensures Valid(r)
    ensures r.values == d.values[k := v]
    ensures r.order == if k in d.values then d.order else d.order + [k]
  {
    if k in d.values then Dict(d.order, d.values[k := v]) else Dict(d.order + [k], d.values[k := v])
  }

  /** The empty dict `{}`. */
  const EmptyDict: Dict := Dict([], map[])

  /**
   * The dict `get_taxpayer_details` builds from the replies to the first
   * `|gstins|` GSTINs: an accepted reply stores the extracted details under
   * its GSTIN; any other reply, an exception included, leaves it unchanged.
   */
  function Accumulated(gstins: seq<string>, replies: seq<Reply>): (d: Dict)
    requires |replies| == |gstins|
    ensures Valid(d)
  {
    if gstins == [] then EmptyDict
    else
      var n := |gstins| - 1;
      var before := Accumulated(gstins[..n], replies[..n]);
      if Accepted(replies[n]) then Put(before, gstins[n], Extracted(replies[n].data)) else before
  }

  /**
   * `get_taxpayer_details`: asks about each GSTIN in turn; an accepted reply
   * stores its details (a repeated GSTIN overwrites its entry in place), and
   * an exception for one GSTIN only skips it.
   */
  method GetTaxpayerDetails(gstins: seq<string>, replies: seq<Reply>) returns (details: Dict)
    requires |replies| == |gstins|
    ensures details == Accumulated(gstins, replies)
  {
    details := EmptyDict;
    for i := 0 to |gstins|
      invariant Valid(details) && details == Accumulated(gstins[..i], replies[..i])
    {
      assert gstins[..i + 1][..i] == gstins[..i] && replies[..i + 1][..i] == replies[..i];
      var reply := replies[i];
      if reply.Response? && reply.success {
        if reply.data != map[] {
          var extracted := ExtractTaxpayerDetails(reply.data);
          details := Put(details, gstins[i], extracted);
        }
      }
    }
    assert gstins[..|gstins|] == gstins && replies[..|replies|] == replies;
  }

  /** GSTIN `g` has an accepted reply among the first `n`. */
  predicate AcceptedFor(gstins: seq<string>, replies: seq<Reply>, g: string)
    requires |replies| == |gstins|
  {
    exists i :: 0 <= i < |gstins| && gstins[i] == g && Accepted(replies[i])
  }

  /** A GSTIN is a key of the result exactly when one of its replies was accepted. */
  lemma {:induction false} AccumulatedKeys(gstins: seq<string>, replies: seq<Reply>, g: string)
    requires |replies| == |gstins|
    ensures g in Accumulated(gstins, replies).values <==> AcceptedFor(gstins, replies, g)
  {
    if gstins != [] {
      var n := |gstins| - 1;
      var gs := gstins[..n];
      var rs := replies[..n];
      AccumulatedKeys(gs, rs, g);
      if AcceptedFor(gs, rs, g) {
        var i :| 0 <= i < n && gs[i] == g && Accepted(rs[i]);
        assert gstins[i] == g && Accepted(replies[i]);
      }
      if AcceptedFor(gstins, replies, g) {
        var i :| 0 <= i < |gstins| && gstins[i] == g && Accepted(replies[i]);
        if i < n {
          assert gs[i] == g && Accepted(rs[i]);
        }
      }
    }
  }

  /** The value under a GSTIN comes from its last accepted reply: a repeated GSTIN overwrites. */
  lemma {:induction false} AccumulatedLastWins(gstins: seq<string>, replies: seq<Reply>, i: nat)
    requires |replies| == |gstins| && i < |gstins| && Accepted(replies[i])
    requires forall j :: i < j < |gstins| && gstins[j] == gstins[i] ==> !Accepted(replies[j])
    ensures gstins[i] in Accumulated(gstins, replies).values
    ensures Accumulated(gstins, replies).values[gstins[i]] == Extracted(replies[i].data)
  {
    var n := |gstins| - 1;
    var gs := gstins[..n];
    var rs := replies[..n];
    var g := gstins[i];
    var before := Accumulated(gs, rs);
    if i < n {
      assert gs[i] == g && rs[i] == replies[i];
      assert forall j :: i < j < n ==> gs[j] == gstins[j] && rs[j] == replies[j];
      AccumulatedLastWins(gs, rs, i);
      assert g in before.values && before.values[g] == Extracted(replies[i].data);
      if Accepted(replies[n]) {
        assert gstins[n] != g;
        var after := Put(before, gstins[n], Extracted(replies[n].data));
        assert after.values[g] == before.values[g];
      }
    }
  }

  /** Every key of the result is one of the input GSTINs. */
  lemma AccumulatedKeysFromInput(gstins: seq<string>, replies: seq<Reply>)
    requires |replies| == |gstins|
    ensures forall k :: k in Accumulated(gstins, replies).order ==> k in gstins
  {
    forall k | k in Accumulated(gstins, replies).order ensures k in gstins {
      AccumulatedKeys(gstins, replies, k);
    }
  }

  /** How `read_gstins_from_file` reads a file, chosen by the lower-cased extension. */
  datatype Reader = CsvReader | ExcelReader

  function ReaderFor(inputFile: string): (r: Option<Reader>)
    ensures r == Some(CsvReader) <==> Lower(Splitext(inputFile).1) == ".csv"
    ensures r == Some(ExcelReader) <==> Lower(Splitext(inputFile).1) in [".xlsx", ".xls"]
  {
    var ext := Lower(Splitext(inputFile).1);
    if ext == ".csv" then Some(CsvReader)
    else if ext == ".xlsx" || ext == ".xls" then Some(ExcelReader)
    else None
  }

  /**
   * `read_gstins_from_file`: the first column as read by the chosen reader;
   * an unsupported extension (a ValueError) and any failure of the reader are
   * reported and give the empty list.
   */
  function ReadGstins(inputFile: string, firstColumn: Result<seq<string>>): (gstins: seq<string>)
    ensures ReaderFor(inputFile).None? || firstColumn.Err? ==> gstins == []
    ensures ReaderFor(inputFile).Some? && firstColumn.Ok? ==> gstins == firstColumn.value
  {
    if ReaderFor(inputFile).None? then []
    else if firstColumn.Err? then []
    else firstColumn.value
  }

  /** `generate_output_file_path`: `<dirname>/<stem>_output_<timestamp>.xlsx`. */
  function OutputFilePath(inputFile: string, timestamp: string): string
  {
    Join(Dirname(inputFile), Stem(inputFile) + "_output_" + timestamp + ".xlsx")
  }

  /** The output file is a sibling of the input named after its stem and the timestamp. */
  lemma OutputFilePathSibling(inputFile: string, timestamp: string)
    requires '/' !in timestamp
    ensures Dirname(OutputFilePath(inputFile, timestamp)) == Dirname(inputFile)
    ensures Basename(OutputFilePath(inputFile, timestamp)) == Stem(inputFile) + "_output_" + timestamp + ".xlsx"
  {
    var stem := Stem(inputFile);
    var name := stem + "_output_" + timestamp + ".xlsx";
    StemHasNoSlash(inputFile);
    assert '/' !in name by {
      forall j | 0 <= j < |name| ensures name[j] != '/' {
        if j < |stem| {
          assert name[j] == stem[j];
        } else if j < |stem| + 8 {
          assert name[j] == "_output_"[j - |stem|];
        } else if j < |stem| + 8 + |timestamp| {
          assert name[j] == timestamp[j - |stem| - 8];
        } else {
          assert name[j] == ".xlsx"[j - |stem| - 8 - |timestamp|];
        }
      }
    }
    SiblingPath(inputFile, name);
  }

  /** One cell of the written sheet: a missing value is an empty cell. */
  function Cell(v: Option<string>): string
  {
    if v.Some? then v.value else ""
  }

  /** The sheet `DataFrame.from_dict(orient="index", columns=output_fields).to_excel(index=False)` writes. */
  function SheetOf(d: Dict): (c: Content)
    requires Valid(d)
    ensures c.Sheet? && |c.rows| == |d.order| + 1 && c.rows[0] == OutputFields
    ensures forall i :: 1 <= i < |c.rows| ==> c.rows[i] == Row(d.values[d.order[i - 1]])
  {
    Sheet([OutputFields] + seq(|d.order|, i requires 0 <= i < |d.order| => Row(d.values[d.order[i]])))
  }

  /** One GSTIN's line: its details under the output fields, in column order. */
  function Row(details: Details): (cells: seq<string>)
    ensures |cells| == |OutputFields|
  {
    seq(|OutputFields|, j requires 0 <= j < |OutputFields| =>
          Cell(if OutputFields[j] in details then details[OutputFields[j]] else None))
  }

  /** The task's state: the input file, and the output path once it is set. */
  class TaxPayerDetailsTask {
    var inputFile: string
    var filePath: Option<string>

    /** The input path as `get_params` reads it; no output path yet. */
    constructor(inputFile0: string)
      ensures inputFile == inputFile0 && filePath == None
    {
      inputFile := inputFile0;
      filePath := None;
    }

    /**
     * `execute`: with no GSTINs read, nothing is set or written; otherwise the
     * output path is set and, when some details were gathered, the sheet is
     * written there.
     */
    method Execute(fs: FileSystem, firstColumn: Result<seq<string>>, timestamp: string, replies: seq<Reply>)
      requires |replies| == |ReadGstins(inputFile, firstColumn)|
      modifies this, fs
      ensures inputFile == old(inputFile)
      ensures fs.dirs == old(fs.dirs)
      ensures ReadGstins(old(inputFile), firstColumn) == [] ==> filePath == old(filePath) && fs.files == old(fs.files)
      ensures ReadGstins(old(inputFile), firstColumn) != [] ==>
                var path := OutputFilePath(old(inputFile), timestamp);
                var details := Accumulated(ReadGstins(old(inputFile), firstColumn), replies);
                filePath == Some(path)
                && fs.files == if details.values == map[] then old(fs.files) else old(fs.files)[path := SheetOf(details)]
    {
      var gstins := ReadGstins(inputFile, firstColumn);
      if gstins == [] {
        return;
      }
      var path := OutputFilePath(inputFile, timestamp);
      filePath := Some(path);
      var details := GetTaxpayerDetails(gstins, replies);
      if details.values != map[] {
        fs.Write(path, SheetOf(details));
      }
    }
  }
}
