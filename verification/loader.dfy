/**
 The frame steps of core/data_loader.py once the CSV is parsed: sort the
 rows by time, forward fill every column, keep the requested columns
 (`load_price_csv`), and reduce a price table to a pair of complete,
 time-ordered columns (`align_pairs`).
 */
module Loader {
  import opened Base
  import opened Tables

  /**
   `ffill()` applied column by column: each column of the result is the
   forward fill of the same column of the input. A cell is missing exactly
   when every cell above it in its column is missing, and present cells keep
   their value.
   */
  function FillColumns(t: Table): (r: Table)
    requires Rectangular(t)
    ensures Rectangular(r) && r.names == t.names && |r.rows| == |t.rows|
    ensures forall i :: 0 <= i < |t.rows| ==> r.rows[i].time == t.rows[i].time
    ensures forall c :: 0 <= c < |t.names| ==> ColumnValues(r.rows, c) == ForwardFill(ColumnValues(t.rows, c))
    ensures forall i, c :: 0 <= i < |t.rows| && 0 <= c < |t.names| ==>
      (r.rows[i].cells[c].None? <==> forall j :: 0 <= j <= i ==> t.rows[j].cells[c].None?)
    ensures forall i, c :: 0 <= i < |t.rows| && 0 <= c < |t.names| && t.rows[i].cells[c].Some? ==>
      r.rows[i].cells[c] == t.rows[i].cells[c]
  {
    var cols := seq(|t.names|, c requires 0 <= c < |t.names| => ForwardFill(ColumnValues(t.rows, c)));
    var r := Table(t.names, seq(|t.rows|, i requires 0 <= i < |t.rows| =>
      Row(t.rows[i].time, seq(|t.names|, c requires 0 <= c < |t.names| => cols[c][i]))));
    forall c | 0 <= c < |t.names|
      ensures ColumnValues(r.rows, c) == cols[c]
    {
    }
    forall i, c | 0 <= i < |t.rows| && 0 <= c < |t.names|
      ensures r.rows[i].cells[c] == cols[c][i]
      ensures r.rows[i].cells[c].None? <==> forall j :: 0 <= j <= i ==> t.rows[j].cells[c].None?
      ensures t.rows[i].cells[c].Some? ==> r.rows[i].cells[c] == t.rows[i].cells[c]
    {
      var col := ColumnValues(t.rows, c);
      assert forall j :: 0 <= j <= i ==> col[j] == t.rows[j].cells[c];
    }
    r
  }

  /** `sort_index()` on a whole table: a time-ordered permutation of its rows, widths kept. */
  function SortRows(t: Table): (r: Table)
    requires Rectangular(t)
    ensures Rectangular(r) && r.names == t.names
    ensures SortedByTime(r.rows) && multiset(r.rows) == multiset(t.rows) && |r.rows| == |t.rows|
  {
    var s := SortByTime(t.rows);
    forall i | 0 <= i < |s|
      ensures |s[i].cells| == |t.names|
    {
      assert s[i] in multiset(t.rows);
    }
    Table(t.names, s)
  }

  /**
   `load_price_csv` after parsing: sort by time, forward fill, then keep the
   `priceCols` columns when the list is non-empty (a missing one is a
   KeyError). An empty list keeps every column: all cells here are numbers.
   Cell (i, k) of the result is row i of the forward-filled, time-sorted
   input column that column k comes from (`Origin`).
   */
  function LoadPrices(t: Table, priceCols: seq<string>): (r: Result<Table, string>)
    requires Rectangular(t)
    ensures r.Ok? <==> forall k :: 0 <= k < |priceCols| ==> priceCols[k] in t.names
    ensures r.Ok? ==>
      && Rectangular(r.value)
      && r.value.names == (if |priceCols| == 0 then t.names else priceCols)
      && |r.value.rows| == |t.rows|
      && SortedByTime(r.value.rows)
      && forall i :: 0 <= i < |t.rows| ==> r.value.rows[i].time == SortRows(t).rows[i].time
    ensures r.Ok? ==> forall i, k :: 0 <= i < |r.value.rows| && 0 <= k < |r.value.names| ==>
      r.value.rows[i].cells[k] == LoadedColumn(t, priceCols, k)[i]
  {
    var filled := FillColumns(SortRows(t));
    var r := if |priceCols| == 0 then Ok(filled) else SelectColumns(filled, priceCols);
    if r.Ok? then LoadedCells(t, priceCols, filled, r.value); r else r
  }

  /** The cells of a loaded table, from the contracts of the fill and of the column selection. */
  lemma LoadedCells(t: Table, priceCols: seq<string>, filled: Table, r: Table)
    requires Rectangular(t) && filled == FillColumns(SortRows(t))
    requires forall k :: 0 <= k < |priceCols| ==> priceCols[k] in t.names
    requires r == if |priceCols| == 0 then filled else SelectColumns(filled, priceCols).value
    ensures forall i, k :: 0 <= i < |r.rows| && 0 <= k < |r.names| ==>
      r.rows[i].cells[k] == LoadedColumn(t, priceCols, k)[i]
  {
    forall i, k | 0 <= i < |r.rows| && 0 <= k < |r.names|
      ensures r.rows[i].cells[k] == LoadedColumn(t, priceCols, k)[i]
    {
      LoadedCell(t, priceCols, filled, r, i, k);
    }
  }

  /** One cell of `LoadedCells`. */
  lemma LoadedCell(t: Table, priceCols: seq<string>, filled: Table, r: Table, i: nat, k: nat)
    requires Rectangular(t) && filled == FillColumns(SortRows(t))
    requires forall j :: 0 <= j < |priceCols| ==> priceCols[j] in t.names
    requires r == if |priceCols| == 0 then filled else SelectColumns(filled, priceCols).value
    requires i < |r.rows| && k < |r.names|
    ensures r.rows[i].cells[k] == LoadedColumn(t, priceCols, k)[i]
  {
    var c := Origin(t.names, priceCols, k);
    assert r.rows[i].cells[k] == filled.rows[i].cells[c];
    assert filled.rows[i].cells[c] == ColumnValues(filled.rows, c)[i];
  }

  /** Column k of a loaded table: the forward fill of the time-sorted input column it comes from. */
  function LoadedColumn(t: Table, priceCols: seq<string>, k: nat): (col: seq<Option<real>>)
    requires Rectangular(t)
    requires k < (if |priceCols| == 0 then |t.names| else |priceCols|)
    requires forall j :: 0 <= j < |priceCols| ==> priceCols[j] in t.names
    ensures |col| == |t.rows|
  {
    var sorted := SortRows(t);
    ForwardFill(ColumnValues(sorted.rows, Origin(t.names, priceCols, k)))
  }

  /** The input column that column k of the loaded table comes from. */
  function Origin(names: seq<string>, priceCols: seq<string>, k: nat): (c: nat)
    requires k < (if |priceCols| == 0 then |names| else |priceCols|)
    requires forall j :: 0 <= j < |priceCols| ==> priceCols[j] in names
    ensures c < |names|
    ensures |priceCols| > 0 ==> names[c] == priceCols[k]
  {
    if |priceCols| == 0 then k else ColumnIndex(names, priceCols[k]).value
  }

  /**
   After loading, a cell is missing only when its input column is missing on
   every earlier row of the time-sorted input, and otherwise it holds a value.
   */
  lemma LoadedCellMissing(t: Table, priceCols: seq<string>, r: Table, i: nat, k: nat)
    requires Rectangular(t)
    requires LoadPrices(t, priceCols) == Ok(r)
    requires i < |r.rows| && k < |r.names|
    ensures var s := SortRows(t).rows;
      var c := Origin(t.names, priceCols, k);
      r.rows[i].cells[k].None? <==> forall j :: 0 <= j <= i ==> s[j].cells[c].None?
  {
    var filled := FillColumns(SortRows(t));
    var c := Origin(t.names, priceCols, k);
    if |priceCols| > 0 {
      assert r == SelectColumns(filled, priceCols).value;
    }
    assert r.rows[i].cells[k] == filled.rows[i].cells[c];
  }

  // ---------------------------------------------------------------------------
  // align_pairs

  /**
   `align_pairs`: the ticker columns (a KeyError when one is absent), with
   every row that has a missing value dropped, sorted by time.
   */
  function AlignPairs(t: Table, tickers: seq<string>): (r: Result<Table, string>)
    requires Rectangular(t)
    ensures r.Ok? <==> forall k :: 0 <= k < |tickers| ==> tickers[k] in t.names
    ensures r.Ok? ==>
      && r.value.names == tickers
      && Rectangular(r.value)
      && SortedByTime(r.value.rows)
      && forall i :: 0 <= i < |r.value.rows| ==> Complete(r.value.rows[i])
    ensures r.Ok? ==> var sub := SelectColumns(t, tickers).value;
      forall x :: multiset(r.value.rows)[x] == if Complete(x) then multiset(sub.rows)[x] else 0
  {
    match SelectColumns(t, tickers)
    case Err(e) => Err(e)
    case Ok(sub) =>
      var rows := SortByTime(DropIncomplete(sub.rows));
      assert Rectangular(Table(tickers, rows)) by {
        forall i | 0 <= i < |rows|
          ensures |rows[i].cells| == |tickers|
        {
          assert rows[i] in multiset(sub.rows);
        }
      }
      forall i | 0 <= i < |rows|
        ensures Complete(rows[i])
      {
        assert rows[i] in multiset(DropIncomplete(sub.rows));
      }
      Ok(Table(tickers, rows))
  }

  /** Names with no repeats, as ticker lists are. */
  predicate Distinct(names: seq<string>) {
    forall j, k :: 0 <= j < k < |names| ==> names[j] != names[k]
  }

  /** Selecting all of a table's (distinct) columns in their own order changes nothing. */
  lemma SelectAllIsIdentity(t: Table)
    requires Rectangular(t) && Distinct(t.names)
    ensures SelectColumns(t, t.names) == Ok(t)
  {
    forall k | 0 <= k < |t.names|
      ensures ColumnIndex(t.names, t.names[k]) == Some(k)
    {
      assert t.names[k] in t.names;
    }
    var r := SelectColumns(t, t.names).value;
    forall i | 0 <= i < |t.rows|
      ensures r.rows[i] == t.rows[i]
    {
      assert r.rows[i].cells == t.rows[i].cells;
    }
    assert r.rows == t.rows;
  }

  /** `dropna` keeps a sequence of complete rows as it is. */
  lemma {:induction false} DropCompleteIsIdentity(rows: seq<Row>)
    requires forall i :: 0 <= i < |rows| ==> Complete(rows[i])
    ensures DropIncomplete(rows) == rows
  {
    if |rows| > 0 {
      var init := rows[..|rows| - 1];
      DropCompleteIsIdentity(init);
      assert rows == init + [rows[|rows| - 1]];
    }
  }

  /** Aligning an aligned pair again returns it unchanged. */
  lemma AlignIdempotent(t: Table, tickers: seq<string>)
    requires Rectangular(t) && Distinct(tickers)
    requires AlignPairs(t, tickers).Ok?
    ensures AlignPairs(AlignPairs(t, tickers).value, tickers) == AlignPairs(t, tickers)
  {
    var a := AlignPairs(t, tickers).value;
    SelectAllIsIdentity(a);
    DropCompleteIsIdentity(a.rows);
    SortSortedIsIdentity(a.rows);
  }
}
