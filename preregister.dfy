/**
 * The pre-registration file task (first version): split the input table into
 * a "unique" table and two duplicate reports, one per key column, each
 * report grouped by key with a `---` separator row between groups; and name
 * the three output workbooks beside the input file.
 */
module PreRegister {
  import opened Common
  import opened Text
  import opened Paths
  import opened Frames

  /** The columns of a report with rows: the order of the projected table. */
  const ProjectedColumns: seq<string> := ["gstin", "phone_number", "name", "email"]

  /** The columns of the empty report the task starts from. */
  const EmptyColumns: seq<string> := ["gstin", "name", "email", "phone_number"]

  /** A report row: a projected record, or the all-`---` separator row. */
  datatype ReportRow = Entry(row: Row) | Separator

  datatype Report = Report(columns: seq<string>, rows: seq<ReportRow>)

  /** `df[['gstin', 'phone_number', 'name', 'email']]` for one row: other columns are dropped. */
  function Project(r: Row): (p: Row)
    ensures p.others == map[]
    ensures Key(p, Gstin) == Key(r, Gstin) && Key(p, PhoneNumber) == Key(r, PhoneNumber)
    ensures p.name == r.name && p.email == r.email
  {
    r.(others := map[])
  }

  function ProjectAll(s: seq<Row>): (p: seq<Row>)
    ensures |p| == |s| && forall i :: 0 <= i < |s| ==> p[i] == Project(s[i])
  {
    seq(|s|, i requires 0 <= i < |s| => Project(s[i]))
  }

  /**
   * The rows `create_duplicate_dfs` builds from a sorted table: each record,
   * preceded by a separator when its key differs from the previous record's.
   */
  function Grouped(s: seq<Row>, c: Column): seq<ReportRow>
  {
    if s == [] then []
    else
      var n := |s| - 1;
      Grouped(s[..n], c) + Gap(s, n, c) + [Entry(s[n])]
  }

  /** Python's `!=` on two key cells: NaN differs from everything, itself included. */
  predicate CellsDiffer(a: Cell, b: Cell)
  {
    a.Missing? || b.Missing? || a != b
  }

  /** The separator placed before row `n`: one when its key differs from row `n - 1`'s. */
  function Gap(s: seq<Row>, n: nat, c: Column): seq<ReportRow>
    requires n < |s|
  {
    if n > 0 && CellsDiffer(Key(s[n - 1], c), Key(s[n], c)) then [Separator] else []
  }

  /** Grouping one more row of a table extends the grouping of the shorter prefix. */
  lemma GroupedExtend(s: seq<Row>, i: nat, c: Column)
    requires i < |s|
    ensures Grouped(s[..i + 1], c) == Grouped(s[..i], c) + Gap(s, i, c) + [Entry(s[i])]
  {
    var t := s[..i + 1];
    assert t[..i] == s[..i];
    assert Gap(t, i, c) == Gap(s, i, c);
  }

  lemma RecordsSnoc(rows: seq<ReportRow>, x: ReportRow)
    ensures Records(rows + [x]) == Records(rows) + (if x.Entry? then [x.row] else [])
    ensures SeparatorCount(rows + [x]) == SeparatorCount(rows) + (if x.Separator? then 1 else 0)
  {
    assert (rows + [x])[..|rows|] == rows;
  }

  /** The records of a report, separators removed. */
  function Records(rows: seq<ReportRow>): seq<Row>
  {
    if rows == [] then []
    else Records(rows[..|rows| - 1]) + (if rows[|rows| - 1].Entry? then [rows[|rows| - 1].row] else [])
  }

  function SeparatorCount(rows: seq<ReportRow>): nat
  {
    if rows == [] then 0
    else SeparatorCount(rows[..|rows| - 1]) + (if rows[|rows| - 1].Separator? then 1 else 0)
  }

  /** The distinct values of column `c`, missing cells left out. */
  function KeySet(s: seq<Row>, c: Column): set<Cell>
  {
    set i | 0 <= i < |s| && Key(s[i], c).Value? :: Key(s[i], c)
  }

  /**
   * The groups a report of `s` falls into: one per distinct value of column
   * `c`, and one for each row missing it, since NaN differs even from NaN.
   */
  function GroupCount(s: seq<Row>, c: Column): nat
  {
    |KeySet(s, c)| + Occurrences(s, c, Missing)
  }

  /**
   * Separator rows stand exactly between neighbouring records of different
   * key: never first or last, never next to each other, always between two
   * records whose keys differ; and two neighbouring records share their key,
   * which is a value (two rows missing the key are always kept apart).
   */
  predicate WellSeparated(rows: seq<ReportRow>, c: Column)
  {
    (rows != [] ==> rows[0].Entry? && rows[|rows| - 1].Entry?)
    && SeparatorsBetweenGroups(rows, c)
    && NeighboursShareKey(rows, c)
  }

  predicate SeparatorsBetweenGroups(rows: seq<ReportRow>, c: Column)
  {
    forall p :: 0 <= p < |rows| && rows[p].Separator? ==>
      0 < p < |rows| - 1 && rows[p - 1].Entry? && rows[p + 1].Entry?
      && CellsDiffer(Key(rows[p - 1].row, c), Key(rows[p + 1].row, c))
  }

  predicate NeighboursShareKey(rows: seq<ReportRow>, c: Column)
  {
    forall p :: 0 <= p < |rows| - 1 && rows[p].Entry? && rows[p + 1].Entry? ==>
      !CellsDiffer(Key(rows[p].row, c), Key(rows[p + 1].row, c))
  }

  /** What `create_duplicate_dfs` returns for a table. */
  function DuplicateReport(df: seq<Row>, c: Column): Report
  {
    var sorted := SortByKey(df, c);
    Report(if sorted == [] then EmptyColumns else ProjectedColumns, Grouped(sorted, c))
  }

  /**
   * `create_duplicate_dfs`: sorts by the key column, then walks the rows
   * remembering the previous one and appending a separator before a row
   * whose key differs from it.
   */
  method CreateDuplicateReport(df: seq<Row>, column: Column) returns (report: Report)
    ensures report == DuplicateReport(df, column)
    ensures SortedBy(Records(report.rows), column)
    ensures multiset(Records(report.rows)) == multiset(df)
    ensures WellSeparated(report.rows, column)
    ensures df == [] ==> report == Report(EmptyColumns, [])
  {
    var sorted := SortByKey(df, column);
    var previous: Option<Row> := None;
    var rows: seq<ReportRow> := [];
    var i := 0;
    while i < |sorted|
      invariant 0 <= i <= |sorted|
      invariant previous == if i == 0 then None else Some(sorted[i - 1])
      invariant rows == Grouped(sorted[..i], column)
    {
      var row := sorted[i];
      GroupedExtend(sorted, i, column);
      if previous.Some? && CellsDiffer(Key(previous.value, column), Key(row, column)) {
        rows := rows + [Separator];
      }
      assert rows == Grouped(sorted[..i], column) + Gap(sorted, i, column);
      rows := rows + [Entry(row)];
      previous := Some(row);
      assert rows == Grouped(sorted[..i + 1], column);
      i := i + 1;
    }
    assert sorted[..i] == sorted;
    report := Report(if rows == [] then EmptyColumns else ProjectedColumns, rows);
    ReportRecords(df, column);
  }

  /** Removing the separators gives back the sorted table. */
  lemma {:induction false} GroupedRecords(s: seq<Row>, c: Column)
    ensures Records(Grouped(s, c)) == s
  {
    if s != [] {
      var n := |s| - 1;
      var g := Grouped(s[..n], c);
      GroupedRecords(s[..n], c);
      RecordsGap(g, s, n, c);
      RecordsSnoc(g + Gap(s, n, c), Entry(s[n]));
      assert s[..n] + [s[n]] == s;
    }
  }

  /** A separator adds no record. */
  lemma RecordsGap(g: seq<ReportRow>, s: seq<Row>, n: nat, c: Column)
    requires n < |s|
    ensures Records(g + Gap(s, n, c)) == Records(g)
    ensures SeparatorCount(g + Gap(s, n, c)) == SeparatorCount(g) + |Gap(s, n, c)|
  {
    if Gap(s, n, c) != [] {
      RecordsSnoc(g, Separator);
    } else {
      assert g + Gap(s, n, c) == g;
    }
  }

  /** A non-empty grouping ends with the last record. */
  lemma GroupedLast(s: seq<Row>, c: Column)
    requires s != []
    ensures Grouped(s, c) != [] && Grouped(s, c)[|Grouped(s, c)| - 1] == Entry(s[|s| - 1])
  {
  }

  lemma {:induction false} GroupedWellSeparated(s: seq<Row>, c: Column)
    ensures WellSeparated(Grouped(s, c), c)
  {
    if s != [] {
      var n := |s| - 1;
      var g := Grouped(s[..n], c);
      GroupedWellSeparated(s[..n], c);
      if n > 0 {
        GroupedLast(s[..n], c);
        assert g[|g| - 1] == Entry(s[n - 1]);
      }
      SeparatorsSnoc(g, Gap(s, n, c), s[n], c);
      NeighboursSnoc(g, Gap(s, n, c), s[n], c);
    }
  }

  /**
   * Appending a record, preceded by a separator exactly when the previous
   * record's key differs, keeps separators between groups.
   */
  lemma SeparatorsSnoc(g: seq<ReportRow>, gap: seq<ReportRow>, x: Row, c: Column)
    requires WellSeparated(g, c)
    requires gap == [] || gap == [Separator]
    requires gap == [Separator] <==> g != [] && CellsDiffer(Key(g[|g| - 1].row, c), Key(x, c))
    ensures SeparatorsBetweenGroups(g + gap + [Entry(x)], c)
  {
    var rows := g + gap + [Entry(x)];
    forall p | 0 <= p < |rows| && rows[p].Separator?
      ensures 0 < p < |rows| - 1 && rows[p - 1].Entry? && rows[p + 1].Entry?
              && CellsDiffer(Key(rows[p - 1].row, c), Key(rows[p + 1].row, c))
    {
      if p < |g| {
        assert rows[p] == g[p] && rows[p + 1] == g[p + 1] && rows[p - 1] == g[p - 1];
      }
    }
  }

  /** The same append keeps neighbouring records within one group. */
  lemma NeighboursSnoc(g: seq<ReportRow>, gap: seq<ReportRow>, x: Row, c: Column)
    requires WellSeparated(g, c)
    requires gap == [] || gap == [Separator]
    requires gap == [Separator] <==> g != [] && CellsDiffer(Key(g[|g| - 1].row, c), Key(x, c))
    ensures NeighboursShareKey(g + gap + [Entry(x)], c)
  {
    var rows := g + gap + [Entry(x)];
    forall p | 0 <= p < |rows| - 1 && rows[p].Entry? && rows[p + 1].Entry?
      ensures !CellsDiffer(Key(rows[p].row, c), Key(rows[p + 1].row, c))
    {
      if p + 1 < |g| {
        assert rows[p] == g[p] && rows[p + 1] == g[p + 1];
      }
    }
  }

  /**
   * For a sorted table with rows, the separators number one less than the
   * groups: the distinct key values plus the rows missing the key.
   */
  lemma {:induction false} SeparatorsCountGroups(s: seq<Row>, c: Column)
    requires SortedBy(s, c) && s != []
    ensures SeparatorCount(Grouped(s, c)) == GroupCount(s, c) - 1
  {
    var n := |s| - 1;
    var t := s[..n];
    GroupCountSnoc(s, c);
    GroupedSeparatorStep(s, c);
    if n == 0 {
      assert KeySet(t, c) == {} && Occurrences(t, c, Missing) == 0;
    } else {
      assert SortedBy(t, c);
      SeparatorsCountGroups(t, c);
      NewGroupIffGap(s, c);
    }
  }

  lemma GroupedSeparatorStep(s: seq<Row>, c: Column)
    requires s != []
    ensures SeparatorCount(Grouped(s, c))
            == SeparatorCount(Grouped(s[..|s| - 1], c)) + |Gap(s, |s| - 1, c)|
  {
    var n := |s| - 1;
    var g := Grouped(s[..n], c);
    RecordsGap(g, s, n, c);
    RecordsSnoc(g + Gap(s, n, c), Entry(s[n]));
  }

  /** Whether the last row of `s` opens a group of its own: it misses the key, or its value is new. */
  predicate OpensGroup(s: seq<Row>, c: Column)
    requires s != []
  {
    var k := Key(s[|s| - 1], c);
    k.Missing? || k !in KeySet(s[..|s| - 1], c)
  }

  /** In a sorted table, the last row opens a group exactly when a separator precedes it. */
  lemma NewGroupIffGap(s: seq<Row>, c: Column)
    requires SortedBy(s, c) && |s| >= 2
    ensures OpensGroup(s, c) <==> Gap(s, |s| - 1, c) != []
  {
    var n := |s| - 1;
    var t := s[..n];
    var k := Key(s[n], c);
    assert CellLe(Key(s[n - 1], c), k);
    if Gap(s, n, c) == [] {
      assert t[n - 1] == s[n - 1];
      assert k in KeySet(t, c);
    } else if k.Value? && k in KeySet(t, c) {
      var i :| 0 <= i < |t| && Key(t[i], c).Value? && Key(t[i], c) == k;
      assert s[i] == t[i];
      if i < n - 1 {
        assert CellLe(Key(s[i], c), Key(s[n - 1], c));
      }
      CellLeAntisymmetric(Key(s[n - 1], c), k);
    }
  }

  /** One more row adds one group if it opens one, and none otherwise. */
  lemma GroupCountSnoc(s: seq<Row>, c: Column)
    requires s != []
    ensures GroupCount(s, c) == GroupCount(s[..|s| - 1], c) + (if OpensGroup(s, c) then 1 else 0)
  {
    var n := |s| - 1;
    var t := s[..n];
    var k := Key(s[n], c);
    assert s == t + [s[n]];
    OccurrencesAppend(t, [s[n]], c, Missing);
    assert Occurrences([s[n]], c, Missing) == (if k.Missing? then 1 else 0);
    KeySetSnoc(s, c);
    if k.Value? {
      if k in KeySet(t, c) {
        assert KeySet(s, c) == KeySet(t, c);
      } else {
        assert |KeySet(t, c) + {k}| == |KeySet(t, c)| + 1;
      }
    } else {
      assert KeySet(s, c) == KeySet(t, c);
    }
  }

  lemma KeySetSnoc(s: seq<Row>, c: Column)
    requires s != []
    ensures var k := Key(s[|s| - 1], c);
            KeySet(s, c) == KeySet(s[..|s| - 1], c) + (if k.Value? then {k} else {})
  {
    var n := |s| - 1;
    var t := s[..n];
    var last := if Key(s[n], c).Value? then {Key(s[n], c)} else {};
    forall k | k in KeySet(s, c) ensures k in KeySet(t, c) + last {
      var i :| 0 <= i < |s| && Key(s[i], c).Value? && Key(s[i], c) == k;
      if i < n { assert t[i] == s[i]; }
    }
    forall k | k in KeySet(t, c) ensures k in KeySet(s, c) {
      var i :| 0 <= i < |t| && Key(t[i], c).Value? && Key(t[i], c) == k;
      assert s[i] == t[i];
    }
  }

  /** The table that survives both `drop_duplicates` calls. */
  function UniqueRows(df: seq<Row>): seq<Row>
  {
    DropDuplicates(DropDuplicates(df, Gstin), PhoneNumber)
  }

  /**
   * `clean_file`: two duplicate reports computed on the whole input, then the
   * input with repeated gstins dropped and, among the survivors, repeated
   * phone numbers dropped.
   */
  method CleanFile(df: seq<Row>) returns (unique: seq<Row>, gstinDups: Report, phoneDups: Report)
    ensures unique == UniqueRows(df)
    ensures gstinDups == DuplicateReport(ProjectAll(Duplicated(df, Gstin)), Gstin)
    ensures phoneDups == DuplicateReport(ProjectAll(Duplicated(df, PhoneNumber)), PhoneNumber)
  {
    gstinDups := CreateDuplicateReport(ProjectAll(Duplicated(df, Gstin)), Gstin);
    phoneDups := CreateDuplicateReport(ProjectAll(Duplicated(df, PhoneNumber)), PhoneNumber);
    unique := DropDuplicates(df, Gstin);
    unique := DropDuplicates(unique, PhoneNumber);
  }

  /** `a` is `b` with some rows removed and the rest in the same order. */
  predicate IsSubsequence(a: seq<Row>, b: seq<Row>)
  {
    a == [] || (b != [] && ((a[0] == b[0] && IsSubsequence(a[1..], b[1..])) || IsSubsequence(a, b[1..])))
  }

  lemma {:induction false} SelectSubsequence(s: seq<Row>, all: seq<Row>, c: Column, dup: bool)
    ensures IsSubsequence(Select(s, all, c, dup), s)
  {
    if s != [] {
      SelectSubsequence(s[1..], all, c, dup);
      var r := Select(s, all, c, dup);
      if (Occurrences(all, c, Key(s[0], c)) >= 2) == dup {
        assert r[0] == s[0] && r[1..] == Select(s[1..], all, c, dup);
      } else {
        assert r == Select(s[1..], all, c, dup);
      }
    }
  }

  lemma {:induction false} SubsequenceTransitive(a: seq<Row>, b: seq<Row>, d: seq<Row>)
    requires IsSubsequence(a, b) && IsSubsequence(b, d)
    ensures IsSubsequence(a, d)
    decreases |d|
  {
    if a != [] {
      if d[0] == b[0] && IsSubsequence(b[1..], d[1..]) {
        if a[0] == b[0] && IsSubsequence(a[1..], b[1..]) {
          SubsequenceTransitive(a[1..], b[1..], d[1..]);
        } else {
          SubsequenceTransitive(a, b[1..], d[1..]);
        }
      } else {
        SubsequenceTransitive(a, b, d[1..]);
      }
    }
  }

  /**
   * The unique table has pairwise distinct gstins and pairwise distinct phone
   * numbers, keeps the surviving rows in their input order, and holds exactly
   * the rows whose gstin is not repeated in the input and whose phone number is
   * not repeated among the rows with an unrepeated gstin.
   */
  lemma UniqueRowsProperties(df: seq<Row>, x: Row)
    ensures DistinctKeys(UniqueRows(df), Gstin) && DistinctKeys(UniqueRows(df), PhoneNumber)
    ensures IsSubsequence(UniqueRows(df), df)
    ensures x in UniqueRows(df) <==>
              x in df && Occurrences(df, Gstin, x.gstin) < 2
              && Occurrences(DropDuplicates(df, Gstin), PhoneNumber, x.phoneNumber) < 2
  {
    var once := DropDuplicates(df, Gstin);
    DropDuplicatesDistinct(df, Gstin);
    SelectKeepsDistinct(once, once, PhoneNumber, false, Gstin);
    DropDuplicatesDistinct(once, PhoneNumber);
    SelectSubsequence(df, df, Gstin, false);
    SelectSubsequence(once, once, PhoneNumber, false);
    SubsequenceTransitive(UniqueRows(df), once, df);
    SelectMembers(df, df, Gstin, false, x);
    SelectMembers(once, once, PhoneNumber, false, x);
  }

  /** A report's records are a permutation of the table it was built from, sorted by its key. */
  lemma ReportRecords(df: seq<Row>, c: Column)
    ensures multiset(Records(DuplicateReport(df, c).rows)) == multiset(df)
    ensures SortedBy(Records(DuplicateReport(df, c).rows), c)
    ensures WellSeparated(DuplicateReport(df, c).rows, c)
    ensures df == [] <==> DuplicateReport(df, c) == Report(EmptyColumns, [])
  {
    if df != [] {
      SortByKeySortedPermutation(df, c);
      assert df[0] in multiset(SortByKey(df, c));
    }
    SortByKeySortedPermutation(df, c);
    GroupedRecords(SortByKey(df, c), c);
    GroupedWellSeparated(SortByKey(df, c), c);
  }

  /**
   * The report for column `c` holds, projected, exactly the input rows whose
   * `c` value occurs at least twice.
   */
  lemma DuplicateReportContents(df: seq<Row>, c: Column, x: Row)
    ensures Project(x) in Records(DuplicateReport(ProjectAll(Duplicated(df, c)), c).rows)
            <==> exists y :: y in df && Project(y) == Project(x) && Occurrences(df, c, Key(y, c)) >= 2
  {
    var p := ProjectAll(Duplicated(df, c));
    ReportRecords(p, c);
    assert Project(x) in Records(DuplicateReport(p, c).rows) <==> Project(x) in multiset(p);
    ProjectedDuplicates(df, c, x);
  }

  lemma ProjectedDuplicates(df: seq<Row>, c: Column, x: Row)
    ensures Project(x) in ProjectAll(Duplicated(df, c))
            <==> exists y :: y in df && Project(y) == Project(x) && Occurrences(df, c, Key(y, c)) >= 2
  {
    var d := Duplicated(df, c);
    var p := ProjectAll(d);
    if Project(x) in p {
      var i :| 0 <= i < |p| && p[i] == Project(x);
      SelectMembers(df, df, c, true, d[i]);
    }
    if y :| y in df && Project(y) == Project(x) && Occurrences(df, c, Key(y, c)) >= 2 {
      SelectMembers(df, df, c, true, y);
      var i :| 0 <= i < |d| && d[i] == y;
      assert p[i] == Project(x);
    }
  }

  /**
   * Every input row ends up somewhere: in the unique table, or (projected) in
   * the gstin report, or in the phone-number report.
   */
  lemma CleanFileCoversInput(df: seq<Row>, x: Row)
    requires x in df
    ensures x in UniqueRows(df)
            || Project(x) in Records(DuplicateReport(ProjectAll(Duplicated(df, Gstin)), Gstin).rows)
            || Project(x) in Records(DuplicateReport(ProjectAll(Duplicated(df, PhoneNumber)), PhoneNumber).rows)
  {
    UniqueRowsProperties(df, x);
    DuplicateReportContents(df, Gstin, x);
    DuplicateReportContents(df, PhoneNumber, x);
    OccurrencesSelect(df, df, Gstin, false, PhoneNumber, x.phoneNumber);
  }

  /**
   * The unique table and the phone-number report can share a row: the phone
   * number of C repeats in the input only through B, whose gstin is repeated,
   * so C survives both filters yet is reported as a phone duplicate.
   */
  lemma UniqueAndPhoneReportOverlap()
    ensures var a := Row(Value("g1"), Value("p1"), "A", "a@x", map[]);
            var b := Row(Value("g1"), Value("p2"), "B", "b@x", map[]);
            var cRow := Row(Value("g2"), Value("p2"), "C", "c@x", map[]);
            var df := [a, b, cRow];
            cRow in UniqueRows(df)
            && Project(cRow) in Records(DuplicateReport(ProjectAll(Duplicated(df, PhoneNumber)), PhoneNumber).rows)
  {
    var a := Row(Value("g1"), Value("p1"), "A", "a@x", map[]);
    var b := Row(Value("g1"), Value("p2"), "B", "b@x", map[]);
    var cRow := Row(Value("g2"), Value("p2"), "C", "c@x", map[]);
    var df := [a, b, cRow];
    assert df[1..] == [b, cRow] && [b, cRow][1..] == [cRow] && [cRow][1..] == [];
    assert Occurrences([cRow], Gstin, Value("g2")) == 1 && Occurrences([cRow], PhoneNumber, Value("p2")) == 1;
    assert Occurrences([b, cRow], Gstin, Value("g2")) == 1 && Occurrences([b, cRow], PhoneNumber, Value("p2")) == 2;
    assert Occurrences(df, Gstin, Value("g2")) == 1;
    var once := DropDuplicates(df, Gstin);
    SelectMembers(df, df, Gstin, false, cRow);
    assert cRow in once;
    OccurrencesSelect(df, df, Gstin, false, PhoneNumber, Value("p2"));
    assert Occurrences(df, PhoneNumber, Value("p2")) == 2;
    UniqueRowsProperties(df, cRow);
    DuplicateReportContents(df, PhoneNumber, cRow);
  }

  /**
   * Two rows with an empty gstin cell are gstin duplicates of each other
   * (NaN matches NaN in `duplicated`), yet the report keeps them apart with a
   * separator (NaN differs from NaN under `!=`).
   */
  lemma MissingKeysReportedApart()
    ensures var a := Row(Missing, Value("p1"), "A", "a@x", map[]);
            var b := Row(Missing, Value("p2"), "B", "b@x", map[]);
            var g := Row(Value("g1"), Value("p3"), "G", "g@x", map[]);
            DuplicateReport(ProjectAll(Duplicated([a, b, g], Gstin)), Gstin)
              == Report(ProjectedColumns, [Entry(Project(a)), Separator, Entry(Project(b))])
  {
    var a := Row(Missing, Value("p1"), "A", "a@x", map[]);
    var b := Row(Missing, Value("p2"), "B", "b@x", map[]);
    var g := Row(Value("g1"), Value("p3"), "G", "g@x", map[]);
    var df := [a, b, g];
    assert df[1..] == [b, g] && [b, g][1..] == [g] && [g][1..] == [];
    assert Occurrences([g], Gstin, Missing) == 0 && Occurrences([g], Gstin, Value("g1")) == 1;
    assert Occurrences([b, g], Gstin, Missing) == 1 && Occurrences([b, g], Gstin, Value("g1")) == 1;
    assert Occurrences(df, Gstin, Missing) == 2 && Occurrences(df, Gstin, Value("g1")) == 1;
    assert Select([g], df, Gstin, true) == [];
    assert Select([b, g], df, Gstin, true) == [b];
    assert Duplicated(df, Gstin) == [a, b];
    var p := ProjectAll([a, b]);
    assert p == [Project(a), Project(b)];
    assert p[1..] == [Project(b)];
    assert SortByKey([Project(b)], Gstin) == [Project(b)];
    assert SortByKey(p, Gstin) == p;
    assert p[..1] == [Project(a)];
    assert Grouped(p[..1], Gstin) == [Entry(Project(a))];
  }

  const UniqueSuffix: string := "_unique.xlsx"
  const GstinDupsSuffix: string := "_gstin_dups.xlsx"
  const PhoneDupsSuffix: string := "_phone_number_dups.xlsx"

  /** The three workbook paths `execute` writes: unique table, gstin report, phone-number report. */
  function OutputFiles(filePath: string): (string, string, string)
  {
    (SiblingFile(filePath, UniqueSuffix), SiblingFile(filePath, GstinDupsSuffix),
     SiblingFile(filePath, PhoneDupsSuffix))
  }

  /** `os.path.join(os.path.dirname(p), f"{os.path.splitext(os.path.basename(p))[0]}{suffix}")`. */
  function SiblingFile(filePath: string, suffix: string): string
  {
    Join(Dirname(filePath), Stem(filePath) + suffix)
  }

  lemma SuffixesArePlain()
    ensures '/' !in UniqueSuffix && '/' !in GstinDupsSuffix && '/' !in PhoneDupsSuffix
  {
  }

  /** Each output lies in the input's directory and is named `<stem><suffix>`. */
  lemma OutputFilesBesideInput(filePath: string)
    ensures Dirname(OutputFiles(filePath).0) == Dirname(filePath)
            && Basename(OutputFiles(filePath).0) == Stem(filePath) + UniqueSuffix
    ensures Dirname(OutputFiles(filePath).1) == Dirname(filePath)
            && Basename(OutputFiles(filePath).1) == Stem(filePath) + GstinDupsSuffix
    ensures Dirname(OutputFiles(filePath).2) == Dirname(filePath)
            && Basename(OutputFiles(filePath).2) == Stem(filePath) + PhoneDupsSuffix
  {
    SuffixesArePlain();
    StemSibling(filePath, UniqueSuffix);
    StemSibling(filePath, GstinDupsSuffix);
    StemSibling(filePath, PhoneDupsSuffix);
  }

  /** `join(dirname(p), stem + suffix)` is a file named `stem + suffix` in the directory of `p`. */
  lemma StemSibling(filePath: string, suffix: string)
    requires '/' !in suffix && suffix != ""
    ensures var q := SiblingFile(filePath, suffix);
            Dirname(q) == Dirname(filePath) && Basename(q) == Stem(filePath) + suffix
  {
    StemHasNoSlash(filePath);
    SuffixedName(Stem(filePath), suffix);
    SiblingPath(filePath, Stem(filePath) + suffix);
  }

  /** A slash-free stem with a slash-free, non-empty suffix is a plain file name. */
  lemma SuffixedName(stem: string, suffix: string)
    requires '/' !in stem && '/' !in suffix && suffix != ""
    ensures stem + suffix != "" && '/' !in stem + suffix
  {
    forall i | 0 <= i < |stem + suffix| ensures (stem + suffix)[i] != '/' {
      if i < |stem| { assert (stem + suffix)[i] == stem[i]; }
      else { assert (stem + suffix)[i] == suffix[i - |stem|]; }
    }
  }
}
