/**
 * `CsvFile.split`: cuts a CSV table into files of at most `chunk_size` data
 * rows, `chunk1.csv`, `chunk2.csv`, ..., the first written by `to_csv` with
 * its header line, the others given the column names joined by commas.
 *
 * The table `pandas.read_csv` reads is given as its column names and its
 * rows of cells, each cell the text `to_csv` writes for it. `to_csv` writes
 * with the csv module's minimal quoting.
 */
module CsvFiles {
  import opened Common
  import opened Text
  import opened Paths
  import opened Disk

  /** Minimal quoting quotes a field that holds the delimiter, the quote character or a line break. */
  predicate NeedsQuotes(field: string)
  {
    ',' in field || '"' in field || '\n' in field || '\r' in field
  }

  /** The field with every `"` written twice, as inside a quoted field. */
  function DoubleQuotes(field: string): (e: string)
    ensures |e| >= |field|
  {
    if field == [] then []
    else (if field[0] == '"' then "\"\"" else [field[0]]) + DoubleQuotes(field[1..])
  }

  /** Reading the inside of a quoted field: `""` stands for one `"`. */
  function UndoubleQuotes(e: string): string
  {
    if e == [] then []
    else if |e| >= 2 && e[0] == '"' && e[1] == '"' then "\"" + UndoubleQuotes(e[2..])
    else [e[0]] + UndoubleQuotes(e[1..])
  }

  /** Doubling the quotes loses nothing: reading the field back gives the field. */
  lemma {:induction false} DoubleQuotesReadBack(field: string)
    ensures UndoubleQuotes(DoubleQuotes(field)) == field
  {
    if field != [] {
      DoubleQuotesReadBack(field[1..]);
      var e := DoubleQuotes(field);
      if field[0] == '"' {
        assert e[2..] == DoubleQuotes(field[1..]);
      } else {
        assert e[1..] == DoubleQuotes(field[1..]);
      }
    }
  }

  /** A field as `to_csv` writes it. */
  function QuoteField(field: string): string
  {
    if NeedsQuotes(field) then "\"" + DoubleQuotes(field) + "\"" else field
  }

  /** A field is written as it is unless it needs quoting; a quoted field reads back as the field. */
  lemma QuoteFieldReadsBack(field: string)
    ensures var q := QuoteField(field);
            if NeedsQuotes(field) then |q| >= 2 && q[0] == '"' && q[|q| - 1] == '"' && UndoubleQuotes(q[1..|q| - 1]) == field
            else q == field
  {
    if NeedsQuotes(field) {
      var q := QuoteField(field);
      assert q[1..|q| - 1] == DoubleQuotes(field);
      DoubleQuotesReadBack(field);
    }
  }

  function QuoteFields(cells: seq<string>): (q: seq<string>)
    ensures |q| == |cells| && forall i :: 0 <= i < |cells| ==> q[i] == QuoteField(cells[i])
  {
    seq(|cells|, i requires 0 <= i < |cells| => QuoteField(cells[i]))
  }

  /**
   * One line as `to_csv` writes it: the fields, quoted where needed, joined
   * by commas, then a newline. A line of one empty field is written `""`,
   * so that it does not read back as a blank line.
   */
  function CsvLine(cells: seq<string>): string
  {
    if cells == [""] then "\"\"\n" else JoinWith(",", QuoteFields(cells)) + "\n"
  }

  /** `','.join(cells) + '\n'`: the cells joined by commas with no quoting. */
  function JoinedLine(cells: seq<string>): string
  {
    JoinWith(",", cells) + "\n"
  }

  /** Column names that `to_csv` writes as they are. */
  predicate PlainHeader(columns: seq<string>)
  {
    columns != [""] && forall i :: 0 <= i < |columns| ==> !NeedsQuotes(columns[i])
  }

  /**
   * The column names joined by commas are the header line `to_csv` writes
   * exactly when no name needs quoting and the header is not one empty name.
   */
  lemma HeadersAgree(columns: seq<string>)
    ensures JoinedLine(columns) == CsvLine(columns) <==> PlainHeader(columns)
  {
    if PlainHeader(columns) {
      assert QuoteFields(columns) == columns;
    } else if columns == [""] {
      assert JoinedLine(columns) == "\n";
    } else {
      var i :| 0 <= i < |columns| && NeedsQuotes(columns[i]);
      var q := QuoteFields(columns);
      assert forall j :: 0 <= j < |q| ==> |q[j]| >= |columns[j]|;
      assert |q[i]| > |columns[i]|;
      JoinLonger(",", q, columns, i);
    }
  }

  /** Joining longer parts, one of them strictly longer, gives a longer text. */
  lemma {:induction false} JoinLonger(sep: string, a: seq<string>, b: seq<string>, i: nat)
    requires |a| == |b| && i < |a|
    requires forall j :: 0 <= j < |a| ==> |a[j]| >= |b[j]|
    requires |a[i]| > |b[i]|
    ensures |JoinWith(sep, a)| > |JoinWith(sep, b)|
    decreases |a|
  {
    if |a| > 1 {
      if i == 0 {
        JoinNoShorter(sep, a[1..], b[1..]);
      } else {
        JoinLonger(sep, a[1..], b[1..], i - 1);
      }
    }
  }

  lemma {:induction false} JoinNoShorter(sep: string, a: seq<string>, b: seq<string>)
    requires |a| == |b|
    requires forall j :: 0 <= j < |a| ==> |a[j]| >= |b[j]|
    ensures |JoinWith(sep, a)| >= |JoinWith(sep, b)|
    decreases |a|
  {
    if |a| > 1 {
      JoinNoShorter(sep, a[1..], b[1..]);
    }
  }

  /** The lines of some rows, in order. */
  function CsvBody(rows: seq<seq<string>>): string
  {
    if rows == [] then "" else CsvBody(rows[..|rows| - 1]) + CsvLine(rows[|rows| - 1])
  }

  /**
   * The number of chunks `read_csv(chunksize=s)` yields for `n` rows: one
   * empty chunk, which still carries the column names, when there are none.
   */
  function ChunkCount(n: nat, s: nat): (c: nat)
    requires s >= 1
    ensures c >= 1
    ensures n == 0 ==> c == 1
  {
    if n == 0 then 1 else (n + s - 1) / s
  }

  /** The chunks hold all `n` rows, and every chunk but the first holds at least one. */
  lemma ChunkCountBounds(n: nat, s: nat)
    requires s >= 1
    ensures var c := ChunkCount(n, s);
            c * s >= n && (n > 0 ==> (c - 1) * s < n)
  {
  }

  /** The rows of chunk `k`: rows `k*s` up to `(k+1)*s`, cut at the end of the table. */
  function ChunkRows(rows: seq<seq<string>>, s: nat, k: nat): (chunk: seq<seq<string>>)
    requires s >= 1 && k < ChunkCount(|rows|, s)
    ensures |chunk| <= s
    ensures |rows| > 0 ==> 1 <= |chunk|
    ensures k * s + |chunk| <= |rows| && chunk == rows[k * s..k * s + |chunk|]
  {
    var hi := if (k + 1) * s < |rows| then (k + 1) * s else |rows|;
    ChunkStart(|rows|, s, k);
    rows[k * s..hi]
  }

  /** `f'chunk{chunk_number}.csv'` for the 0-based chunk `k`. */
  function ChunkName(k: nat): string
  {
    "chunk" + NatToString(k + 1) + ".csv"
  }

  /**
   * What the file of chunk `k` holds. The first chunk is written with its
   * header; the others are written without one and then have the first
   * chunk's column names, joined by commas, and a newline put in front.
   */
  function ChunkText(columns: seq<string>, chunk: seq<seq<string>>, k: nat): string
  {
    if k == 0 then CsvLine(columns) + CsvBody(chunk)
    else JoinedLine(columns) + CsvBody(chunk)
  }

  /**
   * Every chunk file is the header line `to_csv` writes followed by the
   * chunk's rows when no column name needs quoting; a later chunk starts
   * with the same header as the first exactly then.
   */
  lemma EveryChunkHasHeader(columns: seq<string>, chunk: seq<seq<string>>, k: nat)
    ensures PlainHeader(columns) ==> ChunkText(columns, chunk, k) == CsvLine(columns) + CsvBody(chunk)
    ensures k > 0 ==> (ChunkText(columns, chunk, k) == ChunkText(columns, chunk, 0) <==> PlainHeader(columns))
  {
    HeadersAgree(columns);
    var body := CsvBody(chunk);
    if k > 0 && ChunkText(columns, chunk, k) == ChunkText(columns, chunk, 0) {
      var a, b := JoinedLine(columns), CsvLine(columns);
      assert a + body == b + body;
      assert |a| == |b|;
      assert a == (a + body)[..|a|] == (b + body)[..|b|] == b;
    }
  }

  /** A column name holding a comma is quoted in the first chunk's header and not in the others'. */
  lemma QuotedColumnHeaders()
    ensures ChunkText(["a,b"], [], 0) == "\"a,b\"\n"
    ensures ChunkText(["a,b"], [], 1) == "a,b\n"
  {
    assert NeedsQuotes("a,b") by { assert "a,b"[1] == ','; }
    assert DoubleQuotes("b") == "b";
    assert DoubleQuotes(",b") == ",b" by { assert ",b"[1..] == "b"; }
    assert DoubleQuotes("a,b") == "a,b" by { assert "a,b"[1..] == ",b"; }
    assert QuoteField("a,b") == "\"a,b\"";
    assert QuoteFields(["a,b"]) == ["\"a,b\""];
  }

  /** The file written for chunk `k`. */
  function ChunkWrite(dir: string, columns: seq<string>, rows: seq<seq<string>>, s: nat, k: nat): (string, Content)
    requires s >= 1 && k < ChunkCount(|rows|, s)
  {
    (Join(dir, ChunkName(k)), Text(ChunkText(columns, ChunkRows(rows, s, k), k)))
  }

  /** Chunk `k` goes to `chunk<k+1>.csv` in the output directory. */
  lemma ChunkWriteAt(dir: string, columns: seq<string>, rows: seq<seq<string>>, s: nat, k: nat)
    requires s >= 1 && k < ChunkCount(|rows|, s)
    ensures ChunkWrite(dir, columns, rows, s, k)
            == (Join(dir, "chunk" + NatToString(k + 1) + ".csv"), Text(ChunkText(columns, ChunkRows(rows, s, k), k)))
  {
  }

  /** The files `split` writes, in order: one per chunk. */
  function CsvWrites(dir: string, columns: seq<string>, rows: seq<seq<string>>, s: nat): (w: seq<(string, Content)>)
    requires s >= 1
    ensures |w| == ChunkCount(|rows|, s)
    ensures forall k :: 0 <= k < |w| ==> w[k] == ChunkWrite(dir, columns, rows, s, k)
  {
    seq(ChunkCount(|rows|, s), k requires 0 <= k < ChunkCount(|rows|, s) => ChunkWrite(dir, columns, rows, s, k))
  }

  /** A table with a header and no rows is still written: `chunk1.csv` holds the header line alone. */
  lemma HeaderOnlyTable(dir: string, columns: seq<string>, s: nat)
    requires s >= 1
    ensures CsvWrites(dir, columns, [], s) == [(Join(dir, "chunk1.csv"), Text(CsvLine(columns)))]
  {
    var w := CsvWrites(dir, columns, [], s);
    assert w[0] == ChunkWrite(dir, columns, [], s, 0);
    assert ChunkRows([], s, 0) == [];
    assert ChunkName(0) == "chunk1.csv" by { assert NatToString(1) == "1"; }
    assert ChunkText(columns, ChunkRows([], s, 0), 0) == CsvLine(columns) + "";
    assert CsvLine(columns) + "" == CsvLine(columns);
    assert w[0] == (Join(dir, "chunk1.csv"), Text(CsvLine(columns)));
  }

  /** The rows of the chunks `0..c`, in order. */
  function ChunksUpTo(rows: seq<seq<string>>, s: nat, c: nat): seq<seq<string>>
    requires s >= 1 && c <= ChunkCount(|rows|, s)
  {
    if c == 0 then [] else ChunksUpTo(rows, s, c - 1) + ChunkRows(rows, s, c - 1)
  }

  /** The first `c` chunks hold exactly the first `min(c*s, n)` rows, in order. */
  lemma {:induction false} ChunksUpToPrefix(rows: seq<seq<string>>, s: nat, c: nat)
    requires s >= 1 && c <= ChunkCount(|rows|, s)
    ensures var hi := if c * s < |rows| then c * s else |rows|;
            ChunksUpTo(rows, s, c) == rows[..hi]
  {
    if c > 0 {
      ChunksUpToPrefix(rows, s, c - 1);
      var lo := (c - 1) * s;
      var hi := if c * s < |rows| then c * s else |rows|;
      assert lo + s == c * s by { MulSucc(c - 1, s); }
      ChunkStart(|rows|, s, c - 1);
      assert ChunkRows(rows, s, c - 1) == rows[lo..hi];
      assert rows[..hi] == rows[..lo] + rows[lo..hi];
    }
  }

  /** Chunk `k` starts inside the table, or at its start when the table has no rows. */
  lemma ChunkStart(n: nat, s: nat, k: nat)
    requires s >= 1 && k < ChunkCount(n, s)
    ensures k * s <= n && (n > 0 ==> k * s < n)
  {
    ChunkCountBounds(n, s);
    MulMono(k, ChunkCount(n, s) - 1, s);
  }

  lemma MulSucc(a: nat, s: nat)
    ensures a * s + s == (a + 1) * s
  {
  }

  lemma MulMono(a: nat, b: nat, s: nat)
    requires a <= b
    ensures a * s <= b * s
  {
    assert b * s == a * s + (b - a) * s;
  }

  /** Splitting loses no row and keeps their order: the chunks put together are the table. */
  lemma ChunksCoverRows(rows: seq<seq<string>>, s: nat)
    requires s >= 1
    ensures ChunksUpTo(rows, s, ChunkCount(|rows|, s)) == rows
  {
    ChunkCountBounds(|rows|, s);
    ChunksUpToPrefix(rows, s, ChunkCount(|rows|, s));
  }

  /** Different chunks go to different files. */
  lemma ChunkNamesDistinct(a: nat, b: nat)
    requires ChunkName(a) == ChunkName(b)
    ensures a == b
  {
    var x, y := NatToString(a + 1), NatToString(b + 1);
    assert |x| == |y|;
    assert x == ChunkName(a)[5..5 + |x|];
    assert y == ChunkName(b)[5..5 + |y|];
    NatToStringValue(a + 1);
    NatToStringValue(b + 1);
  }

  lemma CsvWritesDistinct(dir: string, columns: seq<string>, rows: seq<seq<string>>, s: nat)
    requires s >= 1
    ensures DistinctPaths(CsvWrites(dir, columns, rows, s))
  {
    var w := CsvWrites(dir, columns, rows, s);
    forall a, b | 0 <= a < b < |w| ensures w[a].0 != w[b].0 {
      if w[a].0 == w[b].0 {
        var na, nb := ChunkName(a), ChunkName(b);
        assert na != "" && '/' !in na by { assert na[0] == 'c'; NameHasNoSlash(a); }
        assert nb != "" && '/' !in nb by { assert nb[0] == 'c'; NameHasNoSlash(b); }
        BasenameOfJoin(dir, na);
        BasenameOfJoin(dir, nb);
        ChunkNamesDistinct(a, b);
      }
    }
  }

  lemma NameHasNoSlash(k: nat)
    ensures '/' !in ChunkName(k)
  {
    var d := NatToString(k + 1);
    forall i | 0 <= i < |d| ensures d[i] != '/' {
      assert IsAsciiDigit(d[i]);
    }
    assert ChunkName(k) == "chunk" + d + ".csv";
  }

  /**
   * The body of the `split` loop for chunk `k`: the first chunk is written
   * with its header; any other is written without one, read back, and
   * written again behind the column names.
   */
  method WriteChunk(fs: FileSystem, path: string, columns: seq<string>, chunk: seq<seq<string>>, k: nat)
    modifies fs
    ensures fs.files == old(fs.files)[path := Text(ChunkText(columns, chunk, k))]
    ensures fs.dirs == old(fs.dirs)
  {
    if k == 0 {
      fs.Write(path, Text(CsvLine(columns) + CsvBody(chunk)));
    } else {
      fs.Write(path, Text(CsvBody(chunk)));
      var content := CsvBody(chunk);
      fs.Write(path, Text(JoinWith(",", columns) + "\n" + content));
    }
  }

  /** `CsvFile`: a CSV file on disk, known by its path. */
  class CsvFile {
    const filePath: string

    constructor(filePath: string)
      ensures this.filePath == filePath
    {
      this.filePath := filePath;
    }

    /**
     * `split(output_dir, chunk_size)` on the table read from `filePath`.
     * A chunk size below 1 is the ValueError `read_csv` raises, after the
     * output directory has been created.
     */
    method Split(fs: FileSystem, outputDir: string, chunkSize: int, columns: seq<string>, rows: seq<seq<string>>)
      returns (r: Result<()>)
      modifies fs
      ensures fs.dirs == if old(fs.Exists(outputDir)) then old(fs.dirs) else old(fs.dirs) + {outputDir}
      ensures chunkSize < 1 ==> r == Err(ValueError) && fs.files == old(fs.files)
      ensures chunkSize >= 1 ==> r == Ok(()) && fs.files == ApplyWrites(old(fs.files), CsvWrites(outputDir, columns, rows, chunkSize))
    {
      fs.MakeDirsIfMissing(outputDir);
      if chunkSize < 1 {
        return Err(ValueError);
      }
      ghost var files0 := fs.files;
      ghost var writes := CsvWrites(outputDir, columns, rows, chunkSize);
      var count := ChunkCount(|rows|, chunkSize);
      var chunkNumber := 1;
      var i := 0;
      while i < count
        invariant i <= count && chunkNumber == i + 1
        invariant fs.dirs == old(fs.dirs) + (if old(fs.Exists(outputDir)) then {} else {outputDir})
        invariant fs.files == ApplyWrites(files0, writes[..i])
      {
        var chunk := ChunkRows(rows, chunkSize, i);
        var path := Join(outputDir, "chunk" + NatToString(chunkNumber) + ".csv");
        WriteChunk(fs, path, columns, chunk, i);
        ChunkWriteAt(outputDir, columns, rows, chunkSize, i);
        assert writes[i] == (path, Text(ChunkText(columns, chunk, i)));
        ApplyWritesStep(files0, writes, i);
        chunkNumber := chunkNumber + 1;
        i := i + 1;
      }
      assert writes[..count] == writes;
      return Ok(());
    }
  }
}
