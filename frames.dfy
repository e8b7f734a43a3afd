/**
 * The part of pandas the pre-registration tasks rely on, over a table of
 * rows with the columns gstin, phone_number, name and email (other columns
 * ride along unchanged): `duplicated(keep=False)` / `drop_duplicates(keep=False)`
 * on one key column, and `sort_values` on one key column. A key cell left
 * empty in the workbook is read as NaN: `duplicated` counts two NaNs as the
 * same key, and `sort_values` puts them after every value. Other cells are
 * strings.
 */
module Frames {

  /** A key cell: a value, or the NaN `read_excel` gives for an empty cell. */
  datatype Cell = Missing | Value(text: string)

  /** One spreadsheet row; `others` holds every column besides the four named ones. */
  datatype Row = Row(gstin: Cell, phoneNumber: Cell, name: string, email: string,
                     others: map<string, string>)

  /** The two key columns duplicates are looked for in. */
  datatype Column = Gstin | PhoneNumber

  function ColumnName(c: Column): string
  {
    match c
    case Gstin => "gstin"
    case PhoneNumber => "phone_number"
  }

  function Key(r: Row, c: Column): Cell
  {
    match c
    case Gstin => r.gstin
    case PhoneNumber => r.phoneNumber
  }

  /** How many rows of `s` have `k` in column `c` (NaN matching NaN, as in `duplicated`). */
  function Occurrences(s: seq<Row>, c: Column, k: Cell): nat
  {
    if s == [] then 0
    else (if Key(s[0], c) == k then 1 else 0) + Occurrences(s[1..], c, k)
  }

  /**
   * The rows of `s`, in order, whose key in column `c` occurs at least twice
   * in `all` (when `dup`) or fewer than twice (when `!dup`).
   */
  function Select(s: seq<Row>, all: seq<Row>, c: Column, dup: bool): seq<Row>
  {
    if s == [] then []
    else Kept(s[0], all, c, dup) + Select(s[1..], all, c, dup)
  }

  /** `[x]` when `x`'s key count in `all` is on the selected side, else nothing. */
  function Kept(x: Row, all: seq<Row>, c: Column, dup: bool): seq<Row>
  {
    if (Occurrences(all, c, Key(x, c)) >= 2) == dup then [x] else []
  }

  /** `df[df.duplicated(subset=[c], keep=False)]`: every row whose key is repeated. */
  function Duplicated(s: seq<Row>, c: Column): seq<Row>
  {
    Select(s, s, c, true)
  }

  /** `df.drop_duplicates(subset=[c], keep=False)`: every row whose key is not repeated. */
  function DropDuplicates(s: seq<Row>, c: Column): seq<Row>
  {
    Select(s, s, c, false)
  }

  /** No two rows of `s` share a value in column `c`. */
  predicate DistinctKeys(s: seq<Row>, c: Column)
  {
    forall i, j :: 0 <= i < j < |s| ==> Key(s[i], c) != Key(s[j], c)
  }

  /** A selected row is a row of `s` whose key count in `all` is on the selected side. */
  lemma {:induction false} SelectMembers(s: seq<Row>, all: seq<Row>, c: Column, dup: bool, x: Row)
    ensures x in Select(s, all, c, dup) <==> x in s && (Occurrences(all, c, Key(x, c)) >= 2) == dup
  {
    if s != [] {
      SelectMembers(s[1..], all, c, dup, x);
      assert s == [s[0]] + s[1..];
    }
  }

  /** Selection is a filter: it distributes over concatenation, so the kept rows keep their order. */
  lemma {:induction false} SelectAppend(a: seq<Row>, b: seq<Row>, all: seq<Row>, c: Column, dup: bool)
    ensures Select(a + b, all, c, dup) == Select(a, all, c, dup) + Select(b, all, c, dup)
  {
    if a == [] {
      assert a + b == b;
    } else {
      var ab := a + b;
      assert ab[0] == a[0] && ab[1..] == a[1..] + b;
      SelectAppend(a[1..], b, all, c, dup);
      var kept := Kept(a[0], all, c, dup);
      calc {
        Select(ab, all, c, dup);
        kept + Select(a[1..] + b, all, c, dup);
        kept + (Select(a[1..], all, c, dup) + Select(b, all, c, dup));
        (kept + Select(a[1..], all, c, dup)) + Select(b, all, c, dup);
      }
    }
  }

  /** Filtering never adds occurrences of a key, in any column. */
  lemma {:induction false} OccurrencesSelect(s: seq<Row>, all: seq<Row>, c: Column, dup: bool, d: Column, k: Cell)
    ensures Occurrences(Select(s, all, c, dup), d, k) <= Occurrences(s, d, k)
  {
    if s != [] {
      OccurrencesSelect(s[1..], all, c, dup, d, k);
      OccurrencesAppend(Kept(s[0], all, c, dup), Select(s[1..], all, c, dup), d, k);
    }
  }

  lemma {:induction false} OccurrencesAppend(a: seq<Row>, b: seq<Row>, c: Column, k: Cell)
    ensures Occurrences(a + b, c, k) == Occurrences(a, c, k) + Occurrences(b, c, k)
  {
    if a != [] {
      var ab := a + b;
      assert ab[0] == a[0] && ab[1..] == a[1..] + b;
      OccurrencesAppend(a[1..], b, c, k);
    } else {
      assert a + b == b;
    }
  }

  /** Two rows with the same key make that key occur at least twice. */
  lemma {:induction false} TwoRowsOccurTwice(s: seq<Row>, c: Column, i: nat, j: nat)
    requires i < j < |s| && Key(s[i], c) == Key(s[j], c)
    ensures Occurrences(s, c, Key(s[i], c)) >= 2
  {
    var k := Key(s[i], c);
    if i > 0 {
      TwoRowsOccurTwice(s[1..], c, i - 1, j - 1);
    } else {
      OccursOnce(s[1..], c, j - 1);
    }
  }

  lemma {:induction false} OccursOnce(s: seq<Row>, c: Column, j: nat)
    requires j < |s|
    ensures Occurrences(s, c, Key(s[j], c)) >= 1
  {
    if j > 0 {
      OccursOnce(s[1..], c, j - 1);
    }
  }

  /** A key that occurs is the key of some row. */
  lemma {:induction false} OccurrenceWitness(s: seq<Row>, c: Column, k: Cell) returns (j: nat)
    requires Occurrences(s, c, k) >= 1
    ensures j < |s| && Key(s[j], c) == k
  {
    if Key(s[0], c) == k {
      j := 0;
    } else {
      var j' := OccurrenceWitness(s[1..], c, k);
      j := j' + 1;
    }
  }

  /** Pairwise distinct keys mean every key occurs at most once. */
  lemma {:induction false} DistinctOccursAtMostOnce(s: seq<Row>, c: Column, k: Cell)
    requires DistinctKeys(s, c)
    ensures Occurrences(s, c, k) <= 1
  {
    if s != [] {
      assert DistinctKeys(s[1..], c) by {
        forall i, j | 0 <= i < j < |s| - 1 ensures Key(s[1..][i], c) != Key(s[1..][j], c) {
          assert s[1..][i] == s[i + 1] && s[1..][j] == s[j + 1];
        }
      }
      DistinctOccursAtMostOnce(s[1..], c, k);
      if Key(s[0], c) == k && Occurrences(s[1..], c, k) >= 1 {
        var j := OccurrenceWitness(s[1..], c, k);
        assert false;
      }
    }
  }

  /** `drop_duplicates(keep=False)` leaves pairwise distinct keys in its column. */
  lemma DropDuplicatesDistinct(s: seq<Row>, c: Column)
    ensures DistinctKeys(DropDuplicates(s, c), c)
  {
    var d := DropDuplicates(s, c);
    forall i, j | 0 <= i < j < |d| ensures Key(d[i], c) != Key(d[j], c) {
      if Key(d[i], c) == Key(d[j], c) {
        TwoRowsOccurTwice(d, c, i, j);
        OccurrencesSelect(s, s, c, false, c, Key(d[i], c));
        SelectMembers(s, s, c, false, d[i]);
        assert false;
      }
    }
  }

  /** Filtering keeps keys that were pairwise distinct pairwise distinct, in any column. */
  lemma SelectKeepsDistinct(s: seq<Row>, all: seq<Row>, c: Column, dup: bool, d: Column)
    requires DistinctKeys(s, d)
    ensures DistinctKeys(Select(s, all, c, dup), d)
  {
    var r := Select(s, all, c, dup);
    forall i, j | 0 <= i < j < |r| ensures Key(r[i], d) != Key(r[j], d) {
      if Key(r[i], d) == Key(r[j], d) {
        TwoRowsOccurTwice(r, d, i, j);
        OccurrencesSelect(s, all, c, dup, d, Key(r[i], d));
        DistinctOccursAtMostOnce(s, d, Key(r[i], d));
        assert false;
      }
    }
  }

  /** Python's `<=` on strings: lexicographic by code point. */
  predicate StrLe(a: string, b: string)
  {
    |a| == 0 || (|b| > 0 && (a[0] < b[0] || (a[0] == b[0] && StrLe(a[1..], b[1..]))))
  }

  lemma {:induction false} StrLeTotal(a: string, b: string)
    ensures StrLe(a, b) || StrLe(b, a)
  {
    if |a| > 0 && |b| > 0 && a[0] == b[0] {
      StrLeTotal(a[1..], b[1..]);
    }
  }

  lemma {:induction false} StrLeTransitive(a: string, b: string, c: string)
    requires StrLe(a, b) && StrLe(b, c)
    ensures StrLe(a, c)
  {
    if |a| > 0 && a[0] == b[0] && b[0] == c[0] {
      StrLeTransitive(a[1..], b[1..], c[1..]);
    }
  }

  lemma {:induction false} StrLeAntisymmetric(a: string, b: string)
    requires StrLe(a, b) && StrLe(b, a)
    ensures a == b
  {
    if |a| > 0 {
      StrLeAntisymmetric(a[1..], b[1..]);
      assert a == [a[0]] + a[1..] && b == [b[0]] + b[1..];
    }
  }

  /** The order `sort_values` uses on a key column: values by string order, NaN after every value. */
  predicate CellLe(a: Cell, b: Cell)
  {
    b.Missing? || (a.Value? && StrLe(a.text, b.text))
  }

  lemma CellLeTotal(a: Cell, b: Cell)
    ensures CellLe(a, b) || CellLe(b, a)
  {
    if a.Value? && b.Value? {
      StrLeTotal(a.text, b.text);
    }
  }

  lemma CellLeTransitive(a: Cell, b: Cell, c: Cell)
    requires CellLe(a, b) && CellLe(b, c)
    ensures CellLe(a, c)
  {
    if c.Value? {
      StrLeTransitive(a.text, b.text, c.text);
    }
  }

  lemma CellLeAntisymmetric(a: Cell, b: Cell)
    requires CellLe(a, b) && CellLe(b, a)
    ensures a == b
  {
    if a.Value? && b.Value? {
      StrLeAntisymmetric(a.text, b.text);
    }
  }

  /** In a table sorted by `c`, every row after one with a missing key also misses it. */
  lemma SortedMissingLast(s: seq<Row>, c: Column, i: nat, j: nat)
    requires SortedBy(s, c) && i < j < |s| && Key(s[i], c).Missing?
    ensures Key(s[j], c).Missing?
  {
    assert CellLe(Key(s[i], c), Key(s[j], c));
  }

  /** The rows are in non-decreasing order of column `c`. */
  predicate SortedBy(s: seq<Row>, c: Column)
  {
    forall i, j :: 0 <= i < j < |s| ==> CellLe(Key(s[i], c), Key(s[j], c))
  }

  /** Inserts `x` before the first row whose key is not below it. */
  function Insert(x: Row, s: seq<Row>, c: Column): seq<Row>
  {
    if s == [] then [x]
    else if CellLe(Key(x, c), Key(s[0], c)) then [x] + s
    else [s[0]] + Insert(x, s[1..], c)
  }

  /**
   * `sort_values(by=c)`. pandas does not promise a stable sort, so every
   * property of the model is stated for "a permutation sorted by `c`" and
   * holds whatever order this insertion sort gives to equal keys.
   */
  function SortByKey(s: seq<Row>, c: Column): seq<Row>
  {
    if s == [] then [] else Insert(s[0], SortByKey(s[1..], c), c)
  }

  lemma {:induction false} InsertPermutes(x: Row, s: seq<Row>, c: Column)
    ensures multiset(Insert(x, s, c)) == multiset(s) + multiset{x}
  {
    if s != [] && !CellLe(Key(x, c), Key(s[0], c)) {
      InsertPermutes(x, s[1..], c);
      assert s == [s[0]] + s[1..];
    }
  }

  lemma {:induction false} InsertSorted(x: Row, s: seq<Row>, c: Column)
    requires SortedBy(s, c)
    ensures SortedBy(Insert(x, s, c), c)
  {
    if s == [] {
    } else if CellLe(Key(x, c), Key(s[0], c)) {
      var r := [x] + s;
      forall i, j | 0 <= i < j < |r| ensures CellLe(Key(r[i], c), Key(r[j], c)) {
        if i == 0 && j > 1 {
          CellLeTransitive(Key(x, c), Key(s[0], c), Key(s[j - 1], c));
        }
      }
    } else {
      var t := s[1..];
      assert SortedBy(t, c);
      InsertSorted(x, t, c);
      CellLeTotal(Key(x, c), Key(s[0], c));
      InsertLowerBound(x, t, c, Key(s[0], c));
      var u := Insert(x, t, c);
      assert Insert(x, s, c) == [s[0]] + u;
    }
  }

  /** A lower bound of `x` and of every row of `s` bounds every row of `Insert(x, s)`. */
  lemma {:induction false} InsertLowerBound(x: Row, s: seq<Row>, c: Column, low: Cell)
    requires CellLe(low, Key(x, c))
    requires forall j :: 0 <= j < |s| ==> CellLe(low, Key(s[j], c))
    ensures forall j :: 0 <= j < |Insert(x, s, c)| ==> CellLe(low, Key(Insert(x, s, c)[j], c))
  {
    if s != [] && !CellLe(Key(x, c), Key(s[0], c)) {
      InsertLowerBound(x, s[1..], c, low);
    }
  }

  /** `sort_values` returns a permutation of its input, sorted by the key column. */
  lemma {:induction false} SortByKeySortedPermutation(s: seq<Row>, c: Column)
    ensures SortedBy(SortByKey(s, c), c)
    ensures multiset(SortByKey(s, c)) == multiset(s)
  {
    if s != [] {
      SortByKeySortedPermutation(s[1..], c);
      InsertSorted(s[0], SortByKey(s[1..], c), c);
      InsertPermutes(s[0], SortByKey(s[1..], c), c);
      assert s == [s[0]] + s[1..];
    }
  }
}
