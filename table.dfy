/**
 * The loaded `us-counties.csv` table as an immutable sequence of rows, its
 * string columns, and the `isin` row filter.
 */
module Table {

  /** One row of the table. `cases` and `deaths` are the integer columns. */
  datatype Record = Record(state: string, county: string, date: string, cases: int, deaths: int)

  /** The string-valued columns a dropdown selects on. */
  datatype Column = State | County | Date

  function Field(r: Record, c: Column): string {
    match c
    case State => r.state
    case County => r.county
    case Date => r.date
  }

  /** `df[c]`: the column's values, one per row, in table order. */
  function Col(rows: seq<Record>, c: Column): (col: seq<string>)
    ensures |col| == |rows|
    ensures forall i :: 0 <= i < |rows| ==> col[i] == Field(rows[i], c)
  {
    if rows == [] then [] else [Field(rows[0], c)] + Col(rows[1..], c)
  }

  /** A value occurs in a column exactly when some row holds it there. */
  lemma InCol(rows: seq<Record>, c: Column, x: string)
    ensures x in Col(rows, c) <==> exists r :: r in rows && Field(r, c) == x
  {
    var col := Col(rows, c);
    if x in col {
      var i :| 0 <= i < |col| && col[i] == x;
      assert rows[i] in rows;
    }
    if exists r :: r in rows && Field(r, c) == x {
      var r :| r in rows && Field(r, c) == x;
      var i :| 0 <= i < |rows| && rows[i] == r;
      assert col[i] == x;
    }
  }

  /**
   * `rows[rows[c].isin(values)]`: the rows whose column `c` holds one of
   * `values`, in table order. Every such row is kept as often as it occurs,
   * every other row is dropped.
   */
  function WhereIn(rows: seq<Record>, c: Column, values: seq<string>): (kept: seq<Record>)
    ensures |kept| <= |rows|
  {
    if rows == [] then []
    else if Field(rows[0], c) in values then [rows[0]] + WhereIn(rows[1..], c, values)
    else WhereIn(rows[1..], c, values)
  }

  /** The filter keeps each row with a selected value as often as it occurs and drops every other row. */
  lemma {:induction false} WhereInCount(rows: seq<Record>, c: Column, values: seq<string>, r: Record)
    ensures multiset(WhereIn(rows, c, values))[r] == if Field(r, c) in values then multiset(rows)[r] else 0
  {
    if rows != [] {
      WhereInCount(rows[1..], c, values, r);
      assert rows == [rows[0]] + rows[1..];
    }
  }

  /** A row survives the filter exactly when it is a row of the input with a selected value. */
  lemma InWhereIn(rows: seq<Record>, c: Column, values: seq<string>, r: Record)
    ensures r in WhereIn(rows, c, values) <==> r in rows && Field(r, c) in values
  {
    WhereInCount(rows, c, values, r);
    assert r in WhereIn(rows, c, values) <==> r in multiset(WhereIn(rows, c, values));
    assert r in rows <==> r in multiset(rows);
  }

  /** Two `isin` filters may be applied in either order. */
  lemma {:induction false} WhereInCommute(rows: seq<Record>, c1: Column, v1: seq<string>, c2: Column, v2: seq<string>)
    ensures WhereIn(WhereIn(rows, c1, v1), c2, v2) == WhereIn(WhereIn(rows, c2, v2), c1, v1)
  {
    if rows != [] {
      WhereInCommute(rows[1..], c1, v1, c2, v2);
    }
  }

  /** The row lies in all three selections. */
  predicate Matches(r: Record, states: seq<string>, counties: seq<string>, dates: seq<string>) {
    r.state in states && r.county in counties && r.date in dates
  }

  /** A single pass that keeps the rows lying in all three selections, in table order. */
  function WhereMatching(rows: seq<Record>, states: seq<string>, counties: seq<string>, dates: seq<string>): (kept: seq<Record>)
    ensures |kept| <= |rows|
  {
    if rows == [] then []
    else (if Matches(rows[0], states, counties, dates) then [rows[0]] else []) + WhereMatching(rows[1..], states, counties, dates)
  }

  /** The single pass keeps each matching row as often as it occurs and drops every other row. */
  lemma {:induction false} WhereMatchingCount(rows: seq<Record>, states: seq<string>, counties: seq<string>, dates: seq<string>, r: Record)
    ensures multiset(WhereMatching(rows, states, counties, dates))[r]
         == if Matches(r, states, counties, dates) then multiset(rows)[r] else 0
  {
    if rows != [] {
      WhereMatchingCount(rows[1..], states, counties, dates, r);
      assert rows == [rows[0]] + rows[1..];
    }
  }

  /** A row survives the single pass exactly when it is a row of the input lying in all three selections. */
  lemma InWhereMatching(rows: seq<Record>, states: seq<string>, counties: seq<string>, dates: seq<string>, r: Record)
    ensures r in WhereMatching(rows, states, counties, dates) <==> r in rows && Matches(r, states, counties, dates)
  {
    WhereMatchingCount(rows, states, counties, dates, r);
    assert r in WhereMatching(rows, states, counties, dates) <==> r in multiset(WhereMatching(rows, states, counties, dates));
    assert r in rows <==> r in multiset(rows);
  }

  /**
   * Filtering by state, then county, then date keeps exactly the rows the
   * single matching pass keeps, in the same order.
   */
  lemma {:induction false} WhereInChain(rows: seq<Record>, states: seq<string>, counties: seq<string>, dates: seq<string>)
    ensures WhereIn(WhereIn(WhereIn(rows, State, states), County, counties), Date, dates)
         == WhereMatching(rows, states, counties, dates)
  {
    if rows != [] {
      WhereInChain(rows[1..], states, counties, dates);
    }
  }
}
