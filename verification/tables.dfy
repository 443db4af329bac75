/**
 Row-oriented price and feature tables: each row carries its index value
 (a timestamp, as an integer) and one optional cell per column. The pandas
 operations the backtester uses on whole frames live here: `dropna`,
 `sort_index`, selecting columns by name and dropping a column.
 */
module Tables {
  import opened Base

  datatype Row = Row(time: int, cells: seq<Option<real>>)

  datatype Table = Table(names: seq<string>, rows: seq<Row>)

  /** Every row has one cell per column name. */
  predicate Rectangular(t: Table) {
    forall i :: 0 <= i < |t.rows| ==> |t.rows[i].cells| == |t.names|
  }

  /** No cell of the row is missing. */
  predicate Complete(r: Row) {
    forall c :: 0 <= c < |r.cells| ==> r.cells[c].Some?
  }

  predicate SortedByTime(rows: seq<Row>) {
    forall i, j :: 0 <= i < j < |rows| ==> rows[i].time <= rows[j].time
  }

  /** Column c of the table, top to bottom. */
  function ColumnValues(rows: seq<Row>, c: nat): seq<Option<real>>
    requires forall i :: 0 <= i < |rows| ==> c < |rows[i].cells|
  {
    seq(|rows|, i requires 0 <= i < |rows| => rows[i].cells[c])
  }

  /** `dropna()`: the complete rows, each with its multiplicity, in order. */
  function DropIncomplete(rows: seq<Row>): (r: seq<Row>)
    ensures |r| <= |rows|
    ensures forall i :: 0 <= i < |r| ==> Complete(r[i])
    ensures forall x :: multiset(r)[x] == if Complete(x) then multiset(rows)[x] else 0
  {
    Filter(rows, (x: Row) => Complete(x))
  }

  /** Inserting into a sequence adds exactly one element: `x`. */
  function Insert(x: Row, s: seq<Row>): (r: seq<Row>)
    ensures |r| == |s| + 1
    ensures multiset(r) == multiset(s) + multiset{x}
  {
    if |s| == 0 then [x]
    else if x.time <= s[0].time then [x] + s
    else
      assert s == [s[0]] + s[1..];
      [s[0]] + Insert(x, s[1..])
  }

  /** Inserting into a time-sorted sequence keeps it sorted. */
  lemma {:induction false} InsertSorted(x: Row, s: seq<Row>)
    requires SortedByTime(s)
    ensures SortedByTime(Insert(x, s))
  {
    if |s| == 0 {
    } else if x.time <= s[0].time {
      SortedCons(x, s);
    } else {
      var tail := s[1..];
      assert forall k :: 0 <= k < |tail| ==> tail[k] == s[k + 1];
      InsertSorted(x, tail);
      InsertBounded(x, tail, s[0].time);
      SortedCons(s[0], Insert(x, tail));
    }
  }

  /** Every time stamp of an insertion is at least b when those of the parts are. */
  lemma {:induction false} InsertBounded(x: Row, s: seq<Row>, b: int)
    requires x.time >= b && forall k :: 0 <= k < |s| ==> s[k].time >= b
    ensures forall k :: 0 <= k < |Insert(x, s)| ==> Insert(x, s)[k].time >= b
  {
    if |s| > 0 && x.time > s[0].time {
      var tail := s[1..];
      assert forall k :: 0 <= k < |tail| ==> tail[k] == s[k + 1];
      InsertBounded(x, tail, b);
      assert Insert(x, s) == [s[0]] + Insert(x, tail);
    }
  }

  /** A row no later than every row of a sorted sequence can go in front of it. */
  lemma SortedCons(a: Row, rest: seq<Row>)
    requires SortedByTime(rest) && forall k :: 0 <= k < |rest| ==> a.time <= rest[k].time
    ensures SortedByTime([a] + rest)
  {
    var r := [a] + rest;
    forall i, j | 0 <= i < j < |r|
      ensures r[i].time <= r[j].time
    {
      assert r[j] == rest[j - 1];
      if i > 0 {
        assert r[i] == rest[i - 1];
      }
    }
  }

  /** `sort_index()`: a time-ordered permutation of the rows. */
  function SortByTime(s: seq<Row>): (r: seq<Row>)
    ensures SortedByTime(r)
    ensures multiset(r) == multiset(s)
    ensures |r| == |s|
  {
    if |s| == 0 then []
    else
      assert s == [s[0]] + s[1..];
      var sortedRest := SortByTime(s[1..]);
      InsertSorted(s[0], sortedRest);
      Insert(s[0], sortedRest)
  }

  /** Sorting an already time-ordered sequence leaves it as it is. */
  lemma {:induction false} SortSortedIsIdentity(s: seq<Row>)
    requires SortedByTime(s)
    ensures SortByTime(s) == s
  {
    if |s| > 0 {
      SortSortedIsIdentity(s[1..]);
      assert SortByTime(s[1..]) == s[1..];
      assert s == [s[0]] + s[1..];
    }
  }

  /** Position of the first column called `name`, if any. */
  function ColumnIndex(names: seq<string>, name: string): (r: Option<nat>)
    ensures r.Some? ==> r.value < |names| && names[r.value] == name
                        && forall c :: 0 <= c < r.value ==> names[c] != name
    ensures r.None? <==> name !in names
  {
    if |names| == 0 then None
    else if names[0] == name then Some(0)
    else
      match ColumnIndex(names[1..], name)
      case None => None
      case Some(c) => Some(c + 1)
  }

  /** The row restricted to the given column positions, in the given order. */
  function Project(r: Row, idx: seq<nat>): (p: Row)
    requires forall k :: 0 <= k < |idx| ==> idx[k] < |r.cells|
    ensures p.time == r.time && |p.cells| == |idx|
    ensures forall k :: 0 <= k < |idx| ==> p.cells[k] == r.cells[idx[k]]
  {
    Row(r.time, seq(|idx|, k requires 0 <= k < |idx| => r.cells[idx[k]]))
  }

  /** The first requested name that is not a column, if any. */
  function FirstMissing(names: seq<string>, wanted: seq<string>): (r: Option<string>)
    ensures r.None? <==> forall k :: 0 <= k < |wanted| ==> wanted[k] in names
    ensures r.Some? ==> r.value in wanted && r.value !in names
  {
    if |wanted| == 0 then None
    else if wanted[0] !in names then Some(wanted[0])
    else FirstMissing(names, wanted[1..])
  }

  /**
   `df[cols]`: a KeyError naming a missing column, or the table reduced to
   the requested columns in the requested order (each taken from its first
   occurrence), row order and index untouched.
   */
  function SelectColumns(t: Table, cols: seq<string>): (r: Result<Table, string>)
    requires Rectangular(t)
    ensures r.Ok? <==> forall k :: 0 <= k < |cols| ==> cols[k] in t.names
    ensures r.Ok? ==>
      && r.value.names == cols
      && |r.value.rows| == |t.rows|
      && Rectangular(r.value)
      && forall i :: 0 <= i < |t.rows| ==> r.value.rows[i].time == t.rows[i].time
    ensures r.Ok? ==> forall i, k :: 0 <= i < |t.rows| && 0 <= k < |cols| ==>
      r.value.rows[i].cells[k] == t.rows[i].cells[ColumnIndex(t.names, cols[k]).value]
  {
    match FirstMissing(t.names, cols)
    case Some(name) => Err("KeyError: " + name)
    case None =>
      var idx := seq(|cols|, k requires 0 <= k < |cols| => ColumnIndex(t.names, cols[k]).value);
      Ok(Table(cols, seq(|t.rows|, i requires 0 <= i < |t.rows| => Project(t.rows[i], idx))))
  }

  /** Positions of the columns not called `name`, in order. */
  function KeptColumns(names: seq<string>, name: string, from: nat): (r: seq<nat>)
    requires from <= |names|
    ensures forall k :: 0 <= k < |r| ==> from <= r[k] < |names| && names[r[k]] != name
    ensures forall c :: from <= c < |names| && names[c] != name ==> c in r
    ensures forall j, k :: 0 <= j < k < |r| ==> r[j] < r[k]
    decreases |names| - from
  {
    if from == |names| then []
    else if names[from] == name then KeptColumns(names, name, from + 1)
    else [from] + KeptColumns(names, name, from + 1)
  }

  /** The names other than `name`, in order: the reference definition of what a drop leaves. */
  function Without(names: seq<string>, name: string): (r: seq<string>)
    ensures name !in r
  {
    if |names| == 0 then [] else (if names[0] == name then [] else [names[0]]) + Without(names[1..], name)
  }

  /** The kept positions name exactly the columns `Without` keeps. */
  lemma {:induction false} KeptColumnsNames(names: seq<string>, name: string, from: nat)
    requires from <= |names|
    ensures Pick(names, KeptColumns(names, name, from)) == Without(names[from..], name)
    decreases |names| - from
  {
    if from < |names| {
      var rest := KeptColumns(names, name, from + 1);
      KeptColumnsNames(names, name, from + 1);
      WithoutStep(names, name, from);
      if names[from] != name {
        PickCons(names, from, rest);
      }
    }
  }

  lemma WithoutStep(names: seq<string>, name: string, from: nat)
    requires from < |names|
    ensures Without(names[from..], name) == (if names[from] == name then [] else [names[from]]) + Without(names[from + 1..], name)
  {
    assert names[from..][1..] == names[from + 1..];
  }

  /**
   `drop(columns=[name], errors="ignore")`: every column with that name goes,
   the others stay in order with their cells; rows and index are untouched.
   */
  function DropColumn(t: Table, name: string): (r: Table)
    requires Rectangular(t)
    ensures Rectangular(r)
    ensures r.names == Without(t.names, name)
    ensures forall c :: 0 <= c < |t.names| && t.names[c] != name ==> t.names[c] in r.names
    ensures |r.rows| == |t.rows|
    ensures forall i :: 0 <= i < |t.rows| ==> r.rows[i] == Project(t.rows[i], KeptColumns(t.names, name, 0))
  {
    var keep := KeptColumns(t.names, name, 0);
    var names := Pick(t.names, keep);
    KeptColumnsNames(t.names, name, 0);
    assert t.names[0..] == t.names;
    assert forall c :: 0 <= c < |t.names| && t.names[c] != name ==> t.names[c] in names by {
      forall c | 0 <= c < |t.names| && t.names[c] != name
        ensures t.names[c] in names
      {
        var k :| 0 <= k < |keep| && keep[k] == c;
        assert names[k] == t.names[c];
      }
    }
    Table(names, seq(|t.rows|, i requires 0 <= i < |t.rows| => Project(t.rows[i], keep)))
  }
}
