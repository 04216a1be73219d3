/**
 * The MMSI-to-length table built by `read_mmsi_length_map`: a fold over the
 * rows of the classic CSV file that skips one header row, ignores rows that
 * are too short or whose length does not parse, and lets a later row
 * overwrite an earlier one for the same MMSI.
 */
module LengthTable {
  import opened Wrappers
  import opened Text
  import opened Library

  /** The table together with the loop's `header_skipped` flag. */
  datatype FoldState = FoldState(table: map<string, real>, headerSkipped: bool)

  /** A row whose first cell, stripped and lower-cased, is `mmsi`. */
  predicate IsHeaderRow(row: seq<string>)
  {
    |row| > 0 && LowerAscii(Strip(row[0])) == "mmsi"
  }

  /** The entry a data row writes: the stripped first cell and the fifth cell
      parsed as a float, or nothing when the row is short or the fifth cell is not a number. */
  function RowEntry(lib: Library, row: seq<string>): (r: Option<(string, real)>)
    ensures r.None? <==> |row| < 5 || lib.parseFloat(Strip(row[4])).None?
    ensures r.Some? ==> r.value == (Strip(row[0]), lib.parseFloat(Strip(row[4])).value)
  {
    if |row| >= 5 then
      match lib.parseFloat(Strip(row[4]))
      case Some(v) => Some((Strip(row[0]), v))
      case None => None
    else None
  }

  /** A data row's effect on the table: its entry is written and no other key changes. */
  function DataStep(lib: Library, m: map<string, real>, row: seq<string>): (r: map<string, real>)
    ensures RowEntry(lib, row).None? ==> r == m
    ensures RowEntry(lib, row).Some? ==>
      var (key, v) := RowEntry(lib, row).value;
      && key in r && r[key] == v
      && r.Keys == m.Keys + {key}
      && (forall k :: k in m && k != key ==> r[k] == m[k])
  {
    match RowEntry(lib, row)
    case Some((key, v)) => m[key := v]
    case None => m
  }

  /** One iteration of the loop: the first header row is skipped and sets the
      flag; every other row, later header rows included, is a data row. */
  function Step(lib: Library, st: FoldState, row: seq<string>): (r: FoldState)
    ensures r.headerSkipped == (st.headerSkipped || IsHeaderRow(row))
    ensures r.headerSkipped != st.headerSkipped ==> r.table == st.table
    ensures r.headerSkipped == st.headerSkipped ==> r.table == DataStep(lib, st.table, row)
  {
    if !st.headerSkipped && IsHeaderRow(row) then FoldState(st.table, true)
    else FoldState(DataStep(lib, st.table, row), st.headerSkipped)
  }

  /** Some row of `rows` is a header row. */
  predicate AnyHeader(rows: seq<seq<string>>)
  {
    Any(rows, IsHeaderRow)
  }

  /** Some element of `s` satisfies `p`. */
  predicate Any<T>(s: seq<T>, p: T -> bool)
  {
    exists i :: 0 <= i < |s| && p(s[i])
  }

  lemma AnySnoc<T>(s: seq<T>, p: T -> bool)
    requires s != []
    ensures Any(s, p) <==> Any(s[..|s| - 1], p) || p(s[|s| - 1])
  {
    var n := |s| - 1;
    if Any(s, p) && !p(s[n]) {
      var i :| 0 <= i < |s| && p(s[i]);
      assert s[..n][i] == s[i];
    }
    if Any(s[..n], p) {
      var i :| 0 <= i < n && p(s[..n][i]);
      assert s[i] == s[..n][i];
    }
  }

  /** The loop over `rows`, starting from `st`. */
  function Fold(lib: Library, st: FoldState, rows: seq<seq<string>>): (r: FoldState)
    ensures r.headerSkipped <==> st.headerSkipped || AnyHeader(rows)
    ensures st.table.Keys <= r.table.Keys
    decreases |rows|
  {
    if rows == [] then st
    else
      var n := |rows| - 1;
      AnySnoc(rows, IsHeaderRow);
      Step(lib, Fold(lib, st, rows[..n]), rows[n])
  }

  /** The same loop with every row treated as a data row. */
  function DataFold(lib: Library, m: map<string, real>, rows: seq<seq<string>>): map<string, real>
    decreases |rows|
  {
    if rows == [] then m
    else DataStep(lib, DataFold(lib, m, rows[..|rows| - 1]), rows[|rows| - 1])
  }

  /** The table `read_mmsi_length_map` leaves behind, starting from the table `m` it finds. */
  function Build(lib: Library, m: map<string, real>, rows: seq<seq<string>>): (r: map<string, real>)
    ensures m.Keys <= r.Keys
  {
    Fold(lib, FoldState(m, false), rows).table
  }

  lemma {:induction false} FoldAppend(lib: Library, st: FoldState, a: seq<seq<string>>, b: seq<seq<string>>)
    ensures Fold(lib, st, a + b) == Fold(lib, Fold(lib, st, a), b)
    decreases |b|
  {
    if b == [] {
      assert a + b == a;
    } else {
      assert (a + b)[..|a + b| - 1] == a + b[..|b| - 1];
      FoldAppend(lib, st, a, b[..|b| - 1]);
    }
  }

  lemma {:induction false} DataFoldAppend(lib: Library, m: map<string, real>, a: seq<seq<string>>, b: seq<seq<string>>)
    ensures DataFold(lib, m, a + b) == DataFold(lib, DataFold(lib, m, a), b)
    decreases |b|
  {
    if b == [] {
      assert a + b == a;
    } else {
      assert (a + b)[..|a + b| - 1] == a + b[..|b| - 1];
      DataFoldAppend(lib, m, a, b[..|b| - 1]);
    }
  }

  /** Once the header has been skipped, every row is handled as a data row. */
  lemma {:induction false} FoldAfterHeader(lib: Library, m: map<string, real>, rows: seq<seq<string>>)
    ensures Fold(lib, FoldState(m, true), rows) == FoldState(DataFold(lib, m, rows), true)
    decreases |rows|
  {
    if rows != [] {
      FoldAfterHeader(lib, m, rows[..|rows| - 1]);
    }
  }

  /** Before any header row is met, every row is handled as a data row and the flag stays down. */
  lemma {:induction false} FoldBeforeHeader(lib: Library, m: map<string, real>, rows: seq<seq<string>>)
    requires forall i :: 0 <= i < |rows| ==> !IsHeaderRow(rows[i])
    ensures Fold(lib, FoldState(m, false), rows) == FoldState(DataFold(lib, m, rows), false)
    decreases |rows|
  {
    if rows != [] {
      FoldBeforeHeader(lib, m, rows[..|rows| - 1]);
    }
  }

  /** Only the first header row is skipped: the table is the data fold of the
      rows before it followed by the data fold of the rows after it, and any
      later header row is treated as data. */
  lemma HeaderSkippedOnce(lib: Library, m: map<string, real>, rows: seq<seq<string>>, h: nat)
    requires h < |rows| && IsHeaderRow(rows[h])
    requires forall i :: 0 <= i < h ==> !IsHeaderRow(rows[i])
    ensures Fold(lib, FoldState(m, false), rows)
         == FoldState(DataFold(lib, DataFold(lib, m, rows[..h]), rows[h + 1..]), true)
  {
    var start := FoldState(m, false);
    var before := DataFold(lib, m, rows[..h]);
    assert rows == rows[..h] + [rows[h]] + rows[h + 1..];
    calc {
      Fold(lib, start, rows);
      { FoldAppend(lib, start, rows[..h] + [rows[h]], rows[h + 1..]); }
      Fold(lib, Fold(lib, start, rows[..h] + [rows[h]]), rows[h + 1..]);
      { FoldAppend(lib, start, rows[..h], [rows[h]]);
        FoldBeforeHeader(lib, m, rows[..h]);
        FoldHeaderRow(lib, before, rows[h]); }
      Fold(lib, FoldState(before, true), rows[h + 1..]);
      { FoldAfterHeader(lib, before, rows[h + 1..]); }
      FoldState(DataFold(lib, before, rows[h + 1..]), true);
    }
  }

  /** A header row met before the flag is set is skipped and sets the flag. */
  lemma FoldHeaderRow(lib: Library, m: map<string, real>, row: seq<string>)
    requires IsHeaderRow(row)
    ensures Fold(lib, FoldState(m, false), [row]) == FoldState(m, true)
  {
    assert [row][..0] == [];
  }

  /** Without a header row, nothing is skipped. */
  lemma NoHeaderNothingSkipped(lib: Library, m: map<string, real>, rows: seq<seq<string>>)
    requires forall i :: 0 <= i < |rows| ==> !IsHeaderRow(rows[i])
    ensures Build(lib, m, rows) == DataFold(lib, m, rows)
  {
    FoldBeforeHeader(lib, m, rows);
  }

  /** Last write wins: the value a key ends with is the one written by the
      last row whose entry has that key. */
  lemma LastWriteWins(lib: Library, m: map<string, real>, rows: seq<seq<string>>,
                       i: nat, key: string, v: real)
    requires i < |rows|
    ensures RowEntry(lib, rows[i]) == Some((key, v))
            && (forall j :: i < j < |rows| ==> RowEntry(lib, rows[j]).None? || RowEntry(lib, rows[j]).value.0 != key)
            ==> key in DataFold(lib, m, rows) && DataFold(lib, m, rows)[key] == v
  {
    if RowEntry(lib, rows[i]) == Some((key, v))
       && (forall j :: i < j < |rows| ==> RowEntry(lib, rows[j]).None? || RowEntry(lib, rows[j]).value.0 != key)
    {
      DataFoldWritesAll(lib, m, rows);
      WriteAllLastWins(EntryOf(lib), m, rows, i, key, v);
    }
  }

  /** The entry function of the data rows, as a value. */
  function EntryOf(lib: Library): seq<string> -> Option<(string, real)>
  {
    row => RowEntry(lib, row)
  }

  /** The table with one entry written, or unchanged when there is none. */
  function WriteEntry(m: map<string, real>, e: Option<(string, real)>): map<string, real>
  {
    match e
    case Some((key, v)) => m[key := v]
    case None => m
  }

  /** The entries `entry` gives to `rows`, written in order. */
  function WriteAll(entry: seq<string> -> Option<(string, real)>, m: map<string, real>,
                    rows: seq<seq<string>>): map<string, real>
    decreases |rows|
  {
    if rows == [] then m
    else WriteEntry(WriteAll(entry, m, rows[..|rows| - 1]), entry(rows[|rows| - 1]))
  }

  /** The data fold writes the rows' entries in order. */
  lemma {:induction false} DataFoldWritesAll(lib: Library, m: map<string, real>, rows: seq<seq<string>>)
    ensures DataFold(lib, m, rows) == WriteAll(EntryOf(lib), m, rows)
    decreases |rows|
  {
    if rows != [] {
      DataFoldWritesAll(lib, m, rows[..|rows| - 1]);
    }
  }

  /** Whatever the entries, the last write of a key is the value it ends with. */
  lemma {:induction false} WriteAllLastWins(entry: seq<string> -> Option<(string, real)>, m: map<string, real>,
                                            rows: seq<seq<string>>, i: nat, key: string, v: real)
    requires i < |rows| && entry(rows[i]) == Some((key, v))
    requires forall j :: i < j < |rows| ==> entry(rows[j]).None? || entry(rows[j]).value.0 != key
    ensures key in WriteAll(entry, m, rows) && WriteAll(entry, m, rows)[key] == v
    decreases |rows|
  {
    var n := |rows| - 1;
    if i < n {
      PrefixKeeps(rows, n, i, (row: seq<string>) => entry(row).None? || entry(row).value.0 != key);
      WriteAllLastWins(entry, m, rows[..n], i, key, v);
    }
  }

  /** Dropping the last element keeps element `i` and, but for the last,
      every element after it. */
  lemma PrefixKeeps<T>(s: seq<T>, n: nat, i: nat, p: T -> bool)
    requires n == |s| - 1 && i < n
    requires forall j :: i < j < |s| ==> p(s[j])
    ensures s[..n][i] == s[i]
    ensures forall j :: i < j < n ==> p(s[..n][j])
  {
  }

  /** With its first header row at `h`, the table is built as if that row were removed. */
  lemma BuildSkipsHeader(lib: Library, m: map<string, real>, rows: seq<seq<string>>, h: nat)
    requires h < |rows| && IsHeaderRow(rows[h])
    requires forall j :: 0 <= j < h ==> !IsHeaderRow(rows[j])
    ensures Build(lib, m, rows) == DataFold(lib, m, rows[..h] + rows[h + 1..])
  {
    HeaderSkippedOnce(lib, m, rows, h);
    DataFoldAppend(lib, m, rows[..h], rows[h + 1..]);
  }

  /** Removing the element at `h != i` keeps, after `i`'s new position, exactly the elements that followed `i`. */
  lemma LaterAfterRemoval<T>(s: seq<T>, h: nat, i: nat, p: T -> bool)
    requires h < |s| && i < |s| && i != h
    requires forall j :: i < j < |s| ==> p(s[j])
    ensures var t, i' := s[..h] + s[h + 1..], if i < h then i else i - 1;
            t[i'] == s[i] && forall j :: i' < j < |t| ==> p(t[j])
  {
    var t := s[..h] + s[h + 1..];
    forall j | (if i < h then i else i - 1) < j < |t| ensures p(t[j]) {
      assert t[j] == s[if j < h then j else j + 1];
    }
  }

  /** Last write wins for the table `read_mmsi_length_map` builds: when the
      first header row is at `h`, the row `i != h` writes `key`, and no later
      row writes it, the table ends with that row's length. */
  lemma BuildLastWriteWins(lib: Library, m: map<string, real>, rows: seq<seq<string>>,
                           h: nat, i: nat, key: string, v: real)
    requires h < |rows| && IsHeaderRow(rows[h])
    requires forall j :: 0 <= j < h ==> !IsHeaderRow(rows[j])
    requires i < |rows| && i != h
    ensures RowEntry(lib, rows[i]) == Some((key, v))
            && (forall j :: i < j < |rows| ==> RowEntry(lib, rows[j]).None? || RowEntry(lib, rows[j]).value.0 != key)
            ==> key in Build(lib, m, rows) && Build(lib, m, rows)[key] == v
  {
    var data := rows[..h] + rows[h + 1..];
    BuildSkipsHeader(lib, m, rows, h);
    if RowEntry(lib, rows[i]) == Some((key, v))
       && (forall j :: i < j < |rows| ==> RowEntry(lib, rows[j]).None? || RowEntry(lib, rows[j]).value.0 != key)
    {
      var i' := if i < h then i else i - 1;
      var quiet := (row: seq<string>) => RowEntry(lib, row).None? || RowEntry(lib, row).value.0 != key;
      LaterAfterRemoval(rows, h, i, quiet);
      LastWriteWins(lib, m, data, i', key, v);
    }
  }

  /** A key no row writes keeps whatever the table held for it, including its absence. */
  lemma {:induction false} UnwrittenKeyUnchanged(lib: Library, m: map<string, real>, rows: seq<seq<string>>, key: string)
    requires forall j :: 0 <= j < |rows| ==> RowEntry(lib, rows[j]).None? || RowEntry(lib, rows[j]).value.0 != key
    ensures key in DataFold(lib, m, rows) <==> key in m
    ensures key in m ==> DataFold(lib, m, rows)[key] == m[key]
    decreases |rows|
  {
    if rows != [] {
      var n := |rows| - 1;
      assert forall j :: 0 <= j < n ==> rows[..n][j] == rows[j];
      UnwrittenKeyUnchanged(lib, m, rows[..n], key);
    }
  }
}
