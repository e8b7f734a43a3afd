/**
 * `ExcelFile.split`: cuts the active sheet of a workbook into files that
 * start at rows 2, 2+s, 2+2s, ... (rows numbered from 1, row 1 holding the
 * headings), each written with the row-1 headings as its columns and named
 * after `i // s + 1` for its start row `i`.
 *
 * The sheet is given as its rows of cells, a cell with no value being "".
 * openpyxl's `sheet[i:j]` takes rows i to j with both ends included, so a
 * chunk holds s + 1 rows and its last row is the next chunk's first.
 */
module ExcelFiles {
  import opened Common
  import opened Text
  import opened Paths
  import opened Disk

  /** `len(range(start, stop, step))`. */
  function RangeLength(start: int, stop: int, step: int): (n: nat)
    requires step != 0
    ensures step > 0 ==> start + n * step >= stop && (n > 0 ==> start + (n - 1) * step < stop)
    ensures step < 0 ==> start + n * step <= stop && (n > 0 ==> start + (n - 1) * step > stop)
  {
    if step > 0 then
      if start < stop then
        var n := (stop - start + step - 1) / step;
        n
      else 0
    else
      if start > stop then
        var n := (start - stop - step - 1) / (-step);
        MulNeg(n, step);
        MulNeg(n - 1, step);
        n
      else 0
  }

  lemma MulNeg(a: int, b: int)
    ensures a * b == -(a * (-b))
  {
  }

  /** `range(start, stop, step)`. */
  function PyRange(start: int, stop: int, step: int): (r: seq<int>)
    requires step != 0
    ensures |r| == RangeLength(start, stop, step)
    ensures forall k :: 0 <= k < |r| ==> r[k] == start + k * step
  {
    seq(RangeLength(start, stop, step), k => start + k * step)
  }

  lemma MulMono(a: int, b: int, s: nat)
    requires a <= b
    ensures a * s <= b * s
  {
    assert b * s == a * s + (b - a) * s;
  }

  /**
   * A positive-step range holds exactly the values from `start` below `stop`
   * that are a whole number of steps away from `start`.
   */
  lemma PyRangeMembers(start: int, stop: int, step: int, x: int)
    requires step > 0
    ensures x in PyRange(start, stop, step) <==> start <= x < stop && (x - start) % step == 0
  {
    var r := PyRange(start, stop, step);
    if x in r {
      var k :| 0 <= k < |r| && r[k] == x;
      MulMono(k, |r| - 1, step);
      assert x - start == k * step;
      DivMulExact(k, step);
    }
    if start <= x < stop && (x - start) % step == 0 {
      var k := (x - start) / step;
      assert x - start == step * k + (x - start) % step;
      assert x == start + k * step;
      if k >= |r| {
        MulMono(|r|, k, step);
        assert false;
      }
      assert r[k] == x;
    }
  }

  lemma DivMulExact(k: nat, step: int)
    requires step > 0
    ensures (k * step) % step == 0
  {
    var q, m := (k * step) / step, (k * step) % step;
    assert k * step == step * q + m && 0 <= m < step;
    DivUnique(k * step, step, q, k);
  }

  /** Python's `a // b`, which rounds towards minus infinity. */
  function FloorDiv(a: int, b: int): (q: int)
    requires b != 0
    ensures b * q <= a < b * q + b || b * q >= a > b * q + b
  {
    if b > 0 then a / b
    else
      var q := (-a) / (-b);
      assert -a == (-b) * q + (-a) % (-b);
      q
  }

  /** `sheet.max_row`: an empty sheet still reports one row. */
  function MaxRow(rows: seq<seq<string>>): (m: nat)
    ensures m >= 1 && m >= |rows|
  {
    if |rows| > 1 then |rows| else 1
  }

  /** `sheet.max_column`: the widest row, and at least one column. */
  function Width(rows: seq<seq<string>>): (w: nat)
    ensures w >= 1 && forall k :: 0 <= k < |rows| ==> |rows[k]| <= w
    decreases |rows|
  {
    if rows == [] then 1
    else
      var rest := Width(rows[1..]);
      assert forall k :: 1 <= k < |rows| ==> rows[k] == rows[1..][k - 1];
      if |rows[0]| > rest then |rows[0]| else rest
  }

  /**
   * The cells of row `n` (numbered from 1) as openpyxl gives them: one per
   * column up to `max_column`, a missing cell or a row past the last one
   * reading as empty.
   */
  function RowCells(rows: seq<seq<string>>, n: int): (c: seq<string>)
    requires n >= 1
    ensures |c| == Width(rows)
    ensures forall j :: 0 <= j < |c| ==> c[j] == if n <= |rows| && j < |rows[n - 1]| then rows[n - 1][j] else ""
  {
    var cells := if n <= |rows| then rows[n - 1] else [];
    cells + seq(Width(rows) - |cells|, _ => "")
  }

  /** The values of row 1, `[cell.value for cell in sheet[1]]`. */
  function Headings(rows: seq<seq<string>>): seq<string>
  {
    RowCells(rows, 1)
  }

  /** The start rows `range(2, max_row, s)` the loop visits. */
  function ChunkStarts(rows: seq<seq<string>>, s: int): seq<int>
    requires s != 0
  {
    PyRange(2, MaxRow(rows), s)
  }

  /** `f'chunk{n}.xlsx'`. */
  function ChunkName(n: int): string
  {
    "chunk" + IntToString(n) + ".xlsx"
  }

  /** The file name of the chunk starting at row `i`. */
  function ChunkNameAt(i: int, s: int): string
    requires s != 0
  {
    ChunkName(FloorDiv(i, s) + 1)
  }

  /**
   * openpyxl's `sheet[i:j]`: rows i to j, both included, or none when j < i.
   * A bound of 0 is an IndexError and a negative one (which the range
   * parser does not accept) a ValueError. With i == j openpyxl returns the
   * one row itself rather than a tuple of rows; `split` never asks for it.
   */
  function SheetSlice(rows: seq<seq<string>>, i: int, j: int): (r: Result<seq<seq<string>>>)
    requires i != j
    ensures r.Ok? <==> i > 0 && j > 0
    ensures r.Err? ==> r.error == if i == 0 || j == 0 then IndexError else ValueError
    ensures r.Ok? ==> |r.value| == (if i < j then j - i + 1 else 0) &&
                      forall k :: 0 <= k < |r.value| ==> r.value[k] == RowCells(rows, i + k)
  {
    if i == 0 || j == 0 then Err(IndexError)
    else if i < 0 || j < 0 then Err(ValueError)
    else if j < i then Ok([])
    else Ok(seq(j - i + 1, k requires 0 <= k < j - i + 1 => RowCells(rows, i + k)))
  }

  /** `data = sheet[i: i + s]`. */
  function ChunkData(rows: seq<seq<string>>, i: int, s: int): Result<seq<seq<string>>>
    requires s != 0
  {
    SheetSlice(rows, i, i + s)
  }

  /** The file written for the chunk starting at row `i`: the row-1 headings over the chunk's rows. */
  function ChunkWrite(dir: string, rows: seq<seq<string>>, s: int, i: int, data: seq<seq<string>>): (string, Content)
    requires s != 0
  {
    (Join(dir, ChunkNameAt(i, s)), Sheet([Headings(rows)] + data))
  }

  /** What `split` does: the files it writes, in order, and how it ends. */
  datatype SplitPlan = SplitPlan(writes: seq<(string, Content)>, outcome: Result<()>)

  /**
   * The chunks starting at `starts`, in order: each is written until the
   * first whose slice fails, and that failure ends the split.
   */
  function ChunkWrites(dir: string, rows: seq<seq<string>>, s: int, starts: seq<int>): (p: SplitPlan)
    requires s != 0
    ensures |p.writes| <= |starts|
    ensures forall k :: 0 <= k < |p.writes| ==>
              ChunkData(rows, starts[k], s).Ok? &&
              p.writes[k] == ChunkWrite(dir, rows, s, starts[k], ChunkData(rows, starts[k], s).value)
    ensures p.outcome.Ok? ==> |p.writes| == |starts|
    ensures p.outcome.Err? ==> |p.writes| < |starts| && ChunkData(rows, starts[|p.writes|], s) == Err(p.outcome.error)
    decreases |starts|
  {
    if starts == [] then SplitPlan([], Ok(()))
    else match ChunkData(rows, starts[0], s)
      case Err(e) => SplitPlan([], Err(e))
      case Ok(data) =>
        var rest := ChunkWrites(dir, rows, s, starts[1..]);
        SplitPlan([ChunkWrite(dir, rows, s, starts[0], data)] + rest.writes, rest.outcome)
  }

  /** The files `split` writes and how it ends, one chunk per start row. */
  function ExcelWrites(dir: string, rows: seq<seq<string>>, s: int): SplitPlan
    requires s != 0
  {
    ChunkWrites(dir, rows, s, ChunkStarts(rows, s))
  }

  /**
   * With a positive chunk size the chunks start at 2, 2+s, 2+2s, ..., every
   * one of them below `max_row`; a sheet of at most two rows gives none.
   */
  lemma ChunkStartsPositive(rows: seq<seq<string>>, s: int)
    requires s > 0
    ensures var st := ChunkStarts(rows, s);
            (forall k :: 0 <= k < |st| ==> st[k] == 2 + k * s && st[k] < MaxRow(rows)) &&
            (MaxRow(rows) <= 2 <==> st == [])
  {
    var st := ChunkStarts(rows, s);
    forall k | 0 <= k < |st| ensures st[k] < MaxRow(rows) {
      MulMono(k, |st| - 1, s);
    }
  }

  /**
   * With a negative chunk size only a sheet with at most one row gives a
   * chunk, and then exactly one, starting at row 2.
   */
  lemma ChunkStartsNegative(rows: seq<seq<string>>, s: int)
    requires s < 0
    ensures ChunkStarts(rows, s) == if MaxRow(rows) == 1 then [2] else []
  {
    var st := ChunkStarts(rows, s);
    if MaxRow(rows) == 1 {
      assert |st| == 1;
    }
  }

  /**
   * The `i // s + 1` naming numbers the k-th chunk (from 0) `k + 1 + 2 // s`:
   * from 3 up with a chunk size of 1, from 2 up with 2, from 1 up otherwise.
   */
  lemma {:induction false} ChunkNumbering(s: int, k: nat)
    requires s > 0
    ensures FloorDiv(2 + k * s, s) + 1 == k + 1 + (if s == 1 then 2 else if s == 2 then 1 else 0)
  {
    var extra := if s == 1 then 2 else if s == 2 then 1 else 0;
    var q := FloorDiv(2 + k * s, s);
    assert s * (k + extra) <= 2 + k * s < s * (k + extra) + s;
    DivUnique(2 + k * s, s, q, k + extra);
  }

  /** Floor division has one answer. */
  lemma DivUnique(a: int, s: int, q1: int, q2: int)
    requires s > 0
    requires s * q1 <= a < s * q1 + s
    requires s * q2 <= a < s * q2 + s
    ensures q1 == q2
  {
    if q1 < q2 {
      MulMono(q1 + 1, q2, s);
    } else if q2 < q1 {
      MulMono(q2 + 1, q1, s);
    }
  }

  /** Different chunk numbers give different file names. */
  lemma ChunkNameInjective(a: int, b: int)
    requires ChunkName(a) == ChunkName(b)
    ensures a == b
  {
    var x, y := IntToString(a), IntToString(b);
    assert |x| == |y|;
    assert x == ChunkName(a)[5..5 + |x|];
    assert y == ChunkName(b)[5..5 + |y|];
    if a < 0 {
      assert y[0] == '-';
      assert x[1..] == NatToString(-a) && y[1..] == NatToString(-b);
      NatToStringValue(-a);
      NatToStringValue(-b);
    } else {
      NatToStringValue(a);
      NatToStringValue(b);
    }
  }

  lemma NameHasNoSlash(n: int)
    ensures ChunkName(n) != "" && '/' !in ChunkName(n)
  {
    var d := NatToString(if n < 0 then -n else n);
    forall i | 0 <= i < |d| ensures d[i] != '/' {
      assert IsAsciiDigit(d[i]);
    }
    assert ChunkName(n)[0] == 'c';
    assert ChunkName(n) == "chunk" + (if n < 0 then "-" else "") + d + ".xlsx";
  }

  /** No two chunks go to the same file, so none overwrites another. */
  lemma ExcelWritesDistinct(dir: string, rows: seq<seq<string>>, s: int)
    requires s != 0
    ensures DistinctPaths(ExcelWrites(dir, rows, s).writes)
  {
    var w := ExcelWrites(dir, rows, s).writes;
    if s < 0 {
      ChunkStartsNegative(rows, s);
    } else {
      ChunkStartsPositive(rows, s);
      forall a, b | 0 <= a < b < |w| ensures w[a].0 != w[b].0 {
        ChunkPathsDistinct(dir, s, a, b);
      }
    }
  }

  /**
   * How a split ends: it fails only for a chunk size of -2 or less on a
   * sheet with one row, where the slice `sheet[2:2+s]` has a bound of 0
   * (IndexError) or below (ValueError), and then nothing is written;
   * otherwise every chunk start gets its workbook.
   */
  lemma ExcelSplitOutcome(dir: string, rows: seq<seq<string>>, s: int)
    requires s != 0
    ensures var p := ExcelWrites(dir, rows, s);
            && (p.outcome.Err? <==> s <= -2 && MaxRow(rows) == 1)
            && (p.outcome.Err? ==> p.writes == [] && p.outcome.error == if s == -2 then IndexError else ValueError)
            && (p.outcome.Ok? ==> |p.writes| == |ChunkStarts(rows, s)|)
  {
    var st := ChunkStarts(rows, s);
    if s < 0 {
      ChunkStartsNegative(rows, s);
      if MaxRow(rows) == 1 {
        BackwardSplit(dir, rows, s);
      }
    } else {
      ChunkStartsPositive(rows, s);
      assert forall j :: 0 <= j < |st| ==> ChunkData(rows, st[j], s).Ok?;
      ChunkWritesComplete(dir, rows, s, st);
    }
  }

  /** When every slice succeeds, every chunk is written and the split ends well. */
  lemma ChunkWritesComplete(dir: string, rows: seq<seq<string>>, s: int, starts: seq<int>)
    requires s != 0
    requires forall j :: 0 <= j < |starts| ==> ChunkData(rows, starts[j], s).Ok?
    ensures ChunkWrites(dir, rows, s, starts).outcome.Ok?
    ensures |ChunkWrites(dir, rows, s, starts).writes| == |starts|
  {
  }

  /** The one backward chunk of a one-row sheet: `sheet[2:2+s]`. */
  lemma BackwardSplit(dir: string, rows: seq<seq<string>>, s: int)
    requires s < 0 && ChunkStarts(rows, s) == [2]
    ensures var p := ExcelWrites(dir, rows, s);
            && (p.outcome.Err? <==> s <= -2)
            && (p.outcome.Err? ==> p.writes == [] && p.outcome.error == if s == -2 then IndexError else ValueError)
            && (p.outcome.Ok? ==> |p.writes| == 1)
  {
    assert ChunkData(rows, 2, s).Ok? <==> s == -1;
    assert ChunkWrites(dir, rows, s, [2][1..]) == SplitPlan([], Ok(()));
  }

  /**
   * With a positive chunk size the k-th workbook holds the headings and the
   * s + 1 rows from its start row 2 + k*s on, every row as wide as the
   * headings.
   */
  lemma ChunkRows(dir: string, rows: seq<seq<string>>, s: int, k: nat)
    requires s > 0 && k < |ExcelWrites(dir, rows, s).writes|
    ensures var w := ExcelWrites(dir, rows, s).writes;
            && w[k].1.Sheet?
            && |w[k].1.rows| == s + 2
            && w[k].1.rows[0] == Headings(rows)
            && forall j :: 1 <= j < s + 2 ==> w[k].1.rows[j] == RowCells(rows, 2 + k * s + j - 1) &&
                                              |w[k].1.rows[j]| == |Headings(rows)|
  {
    var w := ExcelWrites(dir, rows, s).writes;
    var st := ChunkStarts(rows, s);
    ChunkStartsPositive(rows, s);
    var i := st[k];
    assert i == 2 + k * s;
    assert w[k] == ChunkWrite(dir, rows, s, i, ChunkData(rows, i, s).value);
    ChunkSheet(dir, rows, s, i);
  }

  /** The last row of one chunk's workbook is the first row of the next one's. */
  lemma ChunksOverlap(dir: string, rows: seq<seq<string>>, s: int, k: nat)
    requires s > 0 && k + 1 < |ExcelWrites(dir, rows, s).writes|
    ensures var w := ExcelWrites(dir, rows, s).writes;
            w[k].1.Sheet? && w[k + 1].1.Sheet? && |w[k].1.rows| == s + 2 && |w[k + 1].1.rows| >= 2 &&
            w[k].1.rows[s + 1] == w[k + 1].1.rows[1]
  {
    var st := ChunkStarts(rows, s);
    ChunkStartsPositive(rows, s);
    assert st[k + 1] == 2 + (k + 1) * s == st[k] + s;
    PlanOverlap(dir, rows, s, st, k);
  }

  /** Two chunks starting `s` rows apart share a row. */
  lemma PlanOverlap(dir: string, rows: seq<seq<string>>, s: int, starts: seq<int>, k: nat)
    requires s > 0 && k + 1 < |ChunkWrites(dir, rows, s, starts).writes|
    requires starts[k] > 0 && starts[k + 1] == starts[k] + s
    ensures var w := ChunkWrites(dir, rows, s, starts).writes;
            w[k].1.Sheet? && w[k + 1].1.Sheet? && |w[k].1.rows| == s + 2 && |w[k + 1].1.rows| >= 2 &&
            w[k].1.rows[s + 1] == w[k + 1].1.rows[1]
  {
    var w := ChunkWrites(dir, rows, s, starts).writes;
    var i := starts[k];
    var here, next := ChunkWrite(dir, rows, s, i, ChunkData(rows, i, s).value),
                      ChunkWrite(dir, rows, s, i + s, ChunkData(rows, i + s, s).value);
    assert w[k] == here && w[k + 1] == next;
    SharedRow(dir, rows, s, i);
  }

  /** The chunk starting at `i` ends with the row the chunk starting at `i + s` begins with. */
  lemma SharedRow(dir: string, rows: seq<seq<string>>, s: int, i: int)
    requires s > 0 && i > 0
    ensures ChunkData(rows, i, s).Ok? && ChunkData(rows, i + s, s).Ok?
    ensures var here := ChunkWrite(dir, rows, s, i, ChunkData(rows, i, s).value).1;
            var next := ChunkWrite(dir, rows, s, i + s, ChunkData(rows, i + s, s).value).1;
            |here.rows| == s + 2 && |next.rows| == s + 2 && here.rows[s + 1] == next.rows[1]
  {
    ChunkSheet(dir, rows, s, i);
    ChunkSheet(dir, rows, s, i + s);
    var here := ChunkWrite(dir, rows, s, i, ChunkData(rows, i, s).value).1;
    var next := ChunkWrite(dir, rows, s, i + s, ChunkData(rows, i + s, s).value).1;
    assert here.rows[s + 1] == RowCells(rows, i + s) == next.rows[1];
  }

  /** The workbook for the chunk starting at row `i > 0` of a positive chunk size. */
  lemma ChunkSheet(dir: string, rows: seq<seq<string>>, s: int, i: int)
    requires s > 0 && i > 0
    ensures ChunkData(rows, i, s).Ok?
    ensures var c := ChunkWrite(dir, rows, s, i, ChunkData(rows, i, s).value).1;
            && |c.rows| == s + 2 && c.rows[0] == Headings(rows)
            && forall j :: 1 <= j < s + 2 ==> c.rows[j] == RowCells(rows, i + j - 1) && |c.rows[j]| == |Headings(rows)|
  {
    var data := ChunkData(rows, i, s).value;
    var c := ChunkWrite(dir, rows, s, i, data).1;
    assert c.rows == [Headings(rows)] + data;
    forall j | 1 <= j < s + 2 ensures c.rows[j] == RowCells(rows, i + j - 1) {
      assert c.rows[j] == data[j - 1];
    }
  }

  /**
   * With a chunk size of -1 a one-row sheet gives one workbook, named after
   * `2 // -1 + 1 == -1`, that holds the headings and no rows.
   */
  lemma BackwardChunk(dir: string, rows: seq<seq<string>>)
    requires MaxRow(rows) == 1
    ensures ExcelWrites(dir, rows, -1) == SplitPlan([(Join(dir, ChunkName(-1)), Sheet([Headings(rows)]))], Ok(()))
  {
    ChunkStartsNegative(rows, -1);
    assert FloorDiv(2, -1) == -2;
    assert ChunkData(rows, 2, -1) == Ok([]);
    assert ChunkWrites(dir, rows, -1, [2][1..]) == SplitPlan([], Ok(()));
    assert [Headings(rows)] + [] == [Headings(rows)];
  }

  /** The chunks numbered `a` and `b` from 0 go to different paths. */
  lemma ChunkPathsDistinct(dir: string, s: int, a: nat, b: nat)
    requires s > 0 && a < b
    ensures Join(dir, ChunkNameAt(2 + a * s, s)) != Join(dir, ChunkNameAt(2 + b * s, s))
  {
    ChunkNumbering(s, a);
    ChunkNumbering(s, b);
    JoinChunkNamesDistinct(dir, FloorDiv(2 + a * s, s) + 1, FloorDiv(2 + b * s, s) + 1);
  }

  lemma JoinChunkNamesDistinct(dir: string, x: int, y: int)
    requires x != y
    ensures Join(dir, ChunkName(x)) != Join(dir, ChunkName(y))
  {
    NameHasNoSlash(x);
    NameHasNoSlash(y);
    BasenameOfJoin(dir, ChunkName(x));
    BasenameOfJoin(dir, ChunkName(y));
    if ChunkName(x) == ChunkName(y) {
      ChunkNameInjective(x, y);
    }
  }

  /** A chunk whose slice fails ends the plan there, with that failure. */
  lemma PlanStops(dir: string, rows: seq<seq<string>>, s: int, starts: seq<int>, k: nat)
    requires s != 0 && k < |starts| && k <= |ChunkWrites(dir, rows, s, starts).writes|
    requires ChunkData(rows, starts[k], s).Err?
    ensures ChunkWrites(dir, rows, s, starts).writes == ChunkWrites(dir, rows, s, starts).writes[..k]
    ensures ChunkWrites(dir, rows, s, starts).outcome == Err(ChunkData(rows, starts[k], s).error)
  {
  }

  /** A chunk whose slice succeeds is written next. */
  lemma PlanGoesOn(dir: string, rows: seq<seq<string>>, s: int, starts: seq<int>, k: nat)
    requires s != 0 && k < |starts| && k <= |ChunkWrites(dir, rows, s, starts).writes|
    requires ChunkData(rows, starts[k], s).Ok?
    ensures k < |ChunkWrites(dir, rows, s, starts).writes|
    ensures ChunkWrites(dir, rows, s, starts).writes[k] ==
            (Join(dir, ChunkName(FloorDiv(starts[k], s) + 1)),
             Sheet([Headings(rows)] + ChunkData(rows, starts[k], s).value))
  {
  }

  /** Once every chunk is written the plan ends well. */
  lemma PlanCompletes(dir: string, rows: seq<seq<string>>, s: int, starts: seq<int>, k: nat)
    requires s != 0 && k == |starts| && k <= |ChunkWrites(dir, rows, s, starts).writes|
    ensures ChunkWrites(dir, rows, s, starts).writes == ChunkWrites(dir, rows, s, starts).writes[..k]
    ensures ChunkWrites(dir, rows, s, starts).outcome == Ok(())
  {
    var p := ChunkWrites(dir, rows, s, starts);
    assert p.outcome.Ok?;
    var u: () := p.outcome.value;
    assert u == ();
  }

  /** `ExcelFile`: an Excel workbook on disk, known by its path. */
  class ExcelFile {
    const filePath: string

    constructor(filePath: string)
      ensures this.filePath == filePath
    {
      this.filePath := filePath;
    }

    /**
     * `split(output_dir, chunk_size)` on the active sheet `rows` of the
     * workbook at `filePath`. A chunk size of 0 is the ValueError `range`
     * raises, after the output directory has been created.
     */
    method Split(fs: FileSystem, outputDir: string, chunkSize: int, rows: seq<seq<string>>)
      returns (r: Result<()>)
      modifies fs
      ensures fs.dirs == if old(fs.Exists(outputDir)) then old(fs.dirs) else old(fs.dirs) + {outputDir}
      ensures chunkSize == 0 ==> r == Err(ValueError) && fs.files == old(fs.files)
      ensures chunkSize != 0 ==> r == ExcelWrites(outputDir, rows, chunkSize).outcome &&
                                 fs.files == ApplyWrites(old(fs.files), ExcelWrites(outputDir, rows, chunkSize).writes)
    {
      fs.MakeDirsIfMissing(outputDir);
      var totalRows := MaxRow(rows);
      var headings := Headings(rows);
      if chunkSize == 0 {
        return Err(ValueError);
      }
      ghost var files0 := fs.files;
      ghost var plan := ExcelWrites(outputDir, rows, chunkSize);
      var starts := PyRange(2, totalRows, chunkSize);
      var k := 0;
      while k < |starts|
        invariant k <= |starts| && starts == ChunkStarts(rows, chunkSize)
        invariant k <= |plan.writes|
        invariant fs.dirs == old(fs.dirs) + (if old(fs.Exists(outputDir)) then {} else {outputDir})
        invariant fs.files == ApplyWrites(files0, plan.writes[..k])
      {
        var i := starts[k];
        var data := ChunkData(rows, i, chunkSize);
        if data.Err? {
          PlanStops(outputDir, rows, chunkSize, starts, k);
          assert plan.writes[..k] == plan.writes;
          return Err(data.error);
        }
        var path := Join(outputDir, ChunkName(FloorDiv(i, chunkSize) + 1));
        var content := Sheet([headings] + data.value);
        PlanGoesOn(outputDir, rows, chunkSize, starts, k);
        fs.Write(path, content);
        ApplyWritesStep(files0, plan.writes, k);
        k := k + 1;
      }
      PlanCompletes(outputDir, rows, chunkSize, starts, k);
      assert plan.writes[..k] == plan.writes;
      return Ok(());
    }
  }
}
