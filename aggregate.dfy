/**
 * `groupby(['state', 'county', 'date'])[['cases', 'deaths']].sum().reset_index()`
 * and `melt(id_vars=['state', 'county', 'date'], var_name='Type', value_name='Count')`.
 */
module Aggregate {
  import opened Seqs
  import opened Sorting
  import opened Lex
  import opened Table

  /** The group-by key. */
  datatype Key = Key(state: string, county: string, date: string)

  function KeyOf(r: Record): Key {
    Key(r.state, r.county, r.date)
  }

  /** The key of every row, in table order. */
  function Keys(rows: seq<Record>): (ks: seq<Key>)
    ensures |ks| == |rows|
    ensures forall i :: 0 <= i < |rows| ==> ks[i] == KeyOf(rows[i])
  {
    if rows == [] then [] else [KeyOf(rows[0])] + Keys(rows[1..])
  }

  /** A key occurs among the row keys exactly when some row carries it. */
  lemma InKeys(rows: seq<Record>, k: Key)
    ensures k in Keys(rows) <==> exists r :: r in rows && KeyOf(r) == k
  {
    var ks := Keys(rows);
    if k in ks {
      var i :| 0 <= i < |ks| && ks[i] == k;
      assert rows[i] in rows;
    }
    if exists r :: r in rows && KeyOf(r) == k {
      var r :| r in rows && KeyOf(r) == k;
      var i :| 0 <= i < |rows| && rows[i] == r;
      assert ks[i] == k;
    }
  }

  /** The two summed columns. */
  datatype Metric = Cases | Deaths

  function Value(r: Record, m: Metric): int {
    match m
    case Cases => r.cases
    case Deaths => r.deaths
  }

  /** The column total of `m` over `rows`. */
  function Total(rows: seq<Record>, m: Metric): int {
    if rows == [] then 0 else Value(rows[0], m) + Total(rows[1..], m)
  }

  /** The total of `m` over exactly the rows whose key is `k`. */
  function SumFor(rows: seq<Record>, k: Key, m: Metric): int {
    if rows == [] then 0
    else (if KeyOf(rows[0]) == k then Value(rows[0], m) else 0) + SumFor(rows[1..], k, m)
  }

  /** The output row of one group: its key and the two sums. */
  function GroupRow(rows: seq<Record>, k: Key): Record {
    Record(k.state, k.county, k.date, SumFor(rows, k, Cases), SumFor(rows, k, Deaths))
  }

  /** One output row per key of `ks`, in the order of `ks`. */
  function GroupRows(rows: seq<Record>, ks: seq<Key>): (groups: seq<Record>)
    ensures |groups| == |ks|
    ensures Keys(groups) == ks
  {
    if ks == [] then [] else [GroupRow(rows, ks[0])] + GroupRows(rows, ks[1..])
  }

  /**
   * The order of the group keys: state first, then county, then date, each
   * compared as Python strings.
   */
  predicate KeyLess(a: Key, b: Key) {
    || Less(a.state, b.state)
    || (a.state == b.state && Less(a.county, b.county))
    || (a.state == b.state && a.county == b.county && Less(a.date, b.date))
  }

  lemma KeyOrder()
    ensures StrictTotalOrder(KeyLess)
  {
    LessOrder();
  }

  /** The distinct keys of the rows in ascending key order, as `groupby(..., sort=True)` emits them. */
  function GroupKeys(rows: seq<Record>): seq<Key> {
    Sort(KeyLess, Unique(Keys(rows)))
  }

  /**
   * The group keys are strictly ascending, hence distinct, and they are
   * exactly the keys some row carries, one per distinct key of the rows.
   */
  lemma GroupKeysSpec(rows: seq<Record>)
    ensures StrictlyAscending(KeyLess, GroupKeys(rows))
    ensures Distinct(GroupKeys(rows))
    ensures |GroupKeys(rows)| == |Unique(Keys(rows))|
    ensures forall k :: k in GroupKeys(rows) <==> exists r :: r in rows && KeyOf(r) == k
  {
    var u := Unique(Keys(rows));
    SortKeys(u);
    assert |multiset(GroupKeys(rows))| == |multiset(u)|;
    forall k ensures k in u <==> exists r :: r in rows && KeyOf(r) == k {
      InKeys(rows, k);
      if k in Keys(rows) {
        var j :| 0 <= j < |Keys(rows)| && Keys(rows)[j] == k;
      }
    }
  }

  /** Sorting distinct keys gives strictly ascending, distinct keys with the same members. */
  lemma SortKeys(u: seq<Key>)
    requires Distinct(u)
    ensures StrictlyAscending(KeyLess, Sort(KeyLess, u))
    ensures Distinct(Sort(KeyLess, u))
    ensures forall k :: k in Sort(KeyLess, u) <==> k in u
  {
    KeyOrder();
    SortDistinct(KeyLess, u);
  }

  /** The group-by-and-sum: one row per group key, in ascending key order. */
  function GroupBy(rows: seq<Record>): seq<Record> {
    GroupRows(rows, GroupKeys(rows))
  }

  /** Every value of a group row is a sum for its own key. */
  lemma GroupRowsSums(rows: seq<Record>, ks: seq<Key>)
    ensures forall g :: g in GroupRows(rows, ks) ==>
      g.cases == SumFor(rows, KeyOf(g), Cases) && g.deaths == SumFor(rows, KeyOf(g), Deaths)
  {
    var groups := GroupRows(rows, ks);
    forall g | g in groups
      ensures g.cases == SumFor(rows, KeyOf(g), Cases) && g.deaths == SumFor(rows, KeyOf(g), Deaths)
    {
      var i :| 0 <= i < |groups| && groups[i] == g;
      GroupRowsAt(rows, ks, i);
    }
  }

  lemma {:induction false} GroupRowsAt(rows: seq<Record>, ks: seq<Key>, i: nat)
    requires i < |ks|
    ensures GroupRows(rows, ks)[i] == GroupRow(rows, ks[i])
  {
    if i > 0 {
      GroupRowsAt(rows, ks[1..], i - 1);
    }
  }

  /**
   * Grouping yields one row per distinct key of the input, no key twice,
   * and each row's `cases` and `deaths` are the sums over exactly the input
   * rows with that key.
   */
  lemma GroupByKeys(rows: seq<Record>)
    ensures |GroupBy(rows)| == |Unique(Keys(rows))|
    ensures StrictlyAscending(KeyLess, Keys(GroupBy(rows)))
    ensures Distinct(Keys(GroupBy(rows)))
    ensures forall k :: k in Keys(GroupBy(rows)) <==> exists r :: r in rows && KeyOf(r) == k
    ensures forall g :: g in GroupBy(rows) ==>
      g.cases == SumFor(rows, KeyOf(g), Cases) && g.deaths == SumFor(rows, KeyOf(g), Deaths)
  {
    GroupKeysSpec(rows);
    GroupRowsSums(rows, GroupKeys(rows));
  }

  /** Without input rows every sum is zero. */
  lemma {:induction false} GroupRowsOfNothing(ks: seq<Key>, m: Metric)
    ensures Total(GroupRows([], ks), m) == 0
  {
    if ks != [] {
      GroupRowsOfNothing(ks[1..], m);
    }
  }

  /** Peeling the first input row off changes the group totals by that row's value, once. */
  lemma {:induction false} GroupRowsStep(rows: seq<Record>, ks: seq<Key>, m: Metric)
    requires rows != [] && Distinct(ks)
    ensures Total(GroupRows(rows, ks), m)
         == Total(GroupRows(rows[1..], ks), m) + (if KeyOf(rows[0]) in ks then Value(rows[0], m) else 0)
  {
    if ks != [] {
      var k, rest := ks[0], ks[1..];
      DistinctTail(ks);
      GroupRowsStep(rows, rest, m);
      assert Value(GroupRow(rows, k), m) == SumFor(rows, k, m);
      assert Value(GroupRow(rows[1..], k), m) == SumFor(rows[1..], k, m);
      assert Total(GroupRows(rows, ks), m) == SumFor(rows, k, m) + Total(GroupRows(rows, rest), m);
      assert Total(GroupRows(rows[1..], ks), m) == SumFor(rows[1..], k, m) + Total(GroupRows(rows[1..], rest), m);
      assert KeyOf(rows[0]) in ks <==> KeyOf(rows[0]) == k || KeyOf(rows[0]) in rest;
    }
  }

  /** Summing over groups whose distinct keys cover every row loses and doubles nothing. */
  lemma {:induction false} GroupRowsTotal(rows: seq<Record>, ks: seq<Key>, m: Metric)
    requires Distinct(ks)
    requires forall i :: 0 <= i < |rows| ==> KeyOf(rows[i]) in ks
    ensures Total(GroupRows(rows, ks), m) == Total(rows, m)
  {
    if rows == [] {
      GroupRowsOfNothing(ks, m);
    } else {
      assert forall i :: 0 <= i < |rows[1..]| ==> rows[1..][i] == rows[i + 1];
      GroupRowsTotal(rows[1..], ks, m);
      GroupRowsStep(rows, ks, m);
    }
  }

  /** The grouped table has the same `cases` and `deaths` totals as its input. */
  lemma GroupByTotal(rows: seq<Record>, m: Metric)
    ensures Total(GroupBy(rows), m) == Total(rows, m)
  {
    GroupKeysSpec(rows);
    forall i | 0 <= i < |rows| ensures KeyOf(rows[i]) in GroupKeys(rows) {
      assert rows[i] in rows;
    }
    GroupRowsTotal(rows, GroupKeys(rows), m);
  }

  /**
   * The key decides whether a row passes the three selections, so a sum
   * over the filtered rows is the sum over every row of the table with that
   * key, or zero for a key outside the selections.
   */
  lemma {:induction false} SumForWhereMatching(rows: seq<Record>, states: seq<string>, counties: seq<string>, dates: seq<string>, k: Key, m: Metric)
    ensures SumFor(WhereMatching(rows, states, counties, dates), k, m)
         == if k.state in states && k.county in counties && k.date in dates then SumFor(rows, k, m) else 0
  {
    if rows != [] {
      SumForWhereMatching(rows[1..], states, counties, dates, k, m);
      var rest := WhereMatching(rows[1..], states, counties, dates);
      if Matches(rows[0], states, counties, dates) {
        assert WhereMatching(rows, states, counties, dates) == [rows[0]] + rest;
      } else {
        assert WhereMatching(rows, states, counties, dates) == rest;
      }
    }
  }

  /** One row of the long table that `melt` produces. */
  datatype LongRow = LongRow(state: string, county: string, date: string, kind: string, count: int)

  /** The column name `melt` writes into the `Type` column. */
  function MetricName(m: Metric): string {
    match m
    case Cases => "cases"
    case Deaths => "deaths"
  }

  /** `melt` of one value column: one long row per group, in group order. */
  function MeltColumn(groups: seq<Record>, m: Metric): (long: seq<LongRow>)
    ensures |long| == |groups|
    ensures forall i :: 0 <= i < |groups| ==>
      long[i] == LongRow(groups[i].state, groups[i].county, groups[i].date, MetricName(m), Value(groups[i], m))
  {
    if groups == [] then []
    else
      [LongRow(groups[0].state, groups[0].county, groups[0].date, MetricName(m), Value(groups[0], m))]
      + MeltColumn(groups[1..], m)
  }

  /**
   * `melt` with the two value columns `cases` and `deaths`: the whole
   * `cases` column first, then the whole `deaths` column.
   */
  function Melt(groups: seq<Record>): seq<LongRow> {
    MeltColumn(groups, Cases) + MeltColumn(groups, Deaths)
  }

  /** The inverse reshaping: pairs the i-th row of each half back into one wide row. */
  function Pivot(long: seq<LongRow>): (wide: seq<Record>)
    requires |long| % 2 == 0
    ensures |wide| == |long| / 2
  {
    var n := |long| / 2;
    seq(n, i requires 0 <= i < n =>
      Record(long[i].state, long[i].county, long[i].date, long[i].count, long[n + i].count))
  }

  /**
   * The long table has two rows per group: the i-th is the group's `cases`
   * row and the (n+i)-th its `deaths` row, each carrying the group's key.
   */
  lemma MeltShape(groups: seq<Record>)
    ensures |Melt(groups)| == 2 * |groups|
    ensures forall i :: 0 <= i < |groups| ==>
      && Melt(groups)[i] == LongRow(groups[i].state, groups[i].county, groups[i].date, "cases", groups[i].cases)
      && Melt(groups)[|groups| + i] == LongRow(groups[i].state, groups[i].county, groups[i].date, "deaths", groups[i].deaths)
  {
  }

  /** `melt` loses nothing: pivoting the long table back gives the grouped table. */
  lemma MeltPivot(groups: seq<Record>)
    ensures |Melt(groups)| % 2 == 0 && Pivot(Melt(groups)) == groups
  {
    MeltShape(groups);
  }

  /** The key of a long row: its id columns. */
  function LongKey(t: LongRow): Key {
    Key(t.state, t.county, t.date)
  }

  /** The sum of `Count` over the long rows whose `Type` is `kind`. */
  function KindTotal(long: seq<LongRow>, kind: string): int {
    if long == [] then 0 else (if long[0].kind == kind then long[0].count else 0) + KindTotal(long[1..], kind)
  }

  lemma {:induction false} KindTotalAppend(a: seq<LongRow>, b: seq<LongRow>, kind: string)
    ensures KindTotal(a + b, kind) == KindTotal(a, kind) + KindTotal(b, kind)
  {
    if a == [] {
      assert a + b == b;
    } else {
      assert (a + b)[1..] == a[1..] + b;
      KindTotalAppend(a[1..], b, kind);
    }
  }

  /** Melting one value column contributes that column's total under its own name and nothing under the other. */
  lemma {:induction false} MeltColumnTotal(groups: seq<Record>, m: Metric, kind: Metric)
    ensures KindTotal(MeltColumn(groups, m), MetricName(kind)) == if m == kind then Total(groups, m) else 0
  {
    if groups != [] {
      MeltColumnTotal(groups[1..], m, kind);
    }
  }

  /** The `Count` of the `cases` rows of the long table adds up to the `cases` total of the groups, and likewise for `deaths`. */
  lemma MeltTotal(groups: seq<Record>, m: Metric)
    ensures KindTotal(Melt(groups), MetricName(m)) == Total(groups, m)
  {
    KindTotalAppend(MeltColumn(groups, Cases), MeltColumn(groups, Deaths), MetricName(m));
    MeltColumnTotal(groups, Cases, m);
    MeltColumnTotal(groups, Deaths, m);
  }

  /** The long row `melt` makes of the `m` column of the group with key `k`. */
  function LongRowFor(rows: seq<Record>, k: Key, m: Metric): LongRow {
    LongRow(k.state, k.county, k.date, MetricName(m), SumFor(rows, k, m))
  }

  /** Row `i` of the melted groups is the `cases` row of key `ks[i]`, row `|ks| + i` its `deaths` row. */
  lemma MeltGroupRowsAt(rows: seq<Record>, ks: seq<Key>, i: nat)
    requires i < |ks|
    ensures |Melt(GroupRows(rows, ks))| == 2 * |ks|
    ensures Melt(GroupRows(rows, ks))[i] == LongRowFor(rows, ks[i], Cases)
    ensures Melt(GroupRows(rows, ks))[|ks| + i] == LongRowFor(rows, ks[i], Deaths)
  {
    var groups := GroupRows(rows, ks);
    GroupRowsAt(rows, ks, i);
    assert Melt(groups)[i] == MeltColumn(groups, Cases)[i];
    assert Melt(groups)[|ks| + i] == MeltColumn(groups, Deaths)[i];
  }

  /** A long row names its key and its metric: rows for different keys or metrics differ. */
  lemma LongRowForDiffer(rows: seq<Record>, k1: Key, m1: Metric, k2: Key, m2: Metric)
    requires k1 != k2 || m1 != m2
    ensures LongRowFor(rows, k1, m1) != LongRowFor(rows, k2, m2)
  {
  }

  lemma MeltGroupRowsDiffer(rows: seq<Record>, ks: seq<Key>, a: nat, b: nat)
    requires Distinct(ks) && a < b < 2 * |ks|
    ensures Melt(GroupRows(rows, ks))[a] != Melt(GroupRows(rows, ks))[b]
  {
    var n := |ks|;
    if b < n {
      MeltGroupRowsAt(rows, ks, a);
      MeltGroupRowsAt(rows, ks, b);
      LongRowForDiffer(rows, ks[a], Cases, ks[b], Cases);
    } else if a < n {
      MeltGroupRowsAt(rows, ks, a);
      MeltGroupRowsAt(rows, ks, b - n);
      LongRowForDiffer(rows, ks[a], Cases, ks[b - n], Deaths);
    } else {
      MeltGroupRowsAt(rows, ks, a - n);
      MeltGroupRowsAt(rows, ks, b - n);
      LongRowForDiffer(rows, ks[a - n], Deaths, ks[b - n], Deaths);
    }
  }

  /** Melting the groups of distinct keys repeats no long row. */
  lemma MeltGroupRowsDistinct(rows: seq<Record>, ks: seq<Key>)
    requires Distinct(ks)
    ensures Distinct(Melt(GroupRows(rows, ks)))
  {
    var data := Melt(GroupRows(rows, ks));
    MeltShape(GroupRows(rows, ks));
    forall a, b | 0 <= a < b < |data| ensures data[a] != data[b] {
      MeltGroupRowsDiffer(rows, ks, a, b);
    }
  }

  /** Each melted row is the `cases` or `deaths` row of one of the keys. */
  lemma MeltGroupRowsSound(rows: seq<Record>, ks: seq<Key>, t: LongRow)
    requires t in Melt(GroupRows(rows, ks))
    ensures exists k, m :: k in ks && t == LongRowFor(rows, k, m)
  {
    var data := Melt(GroupRows(rows, ks));
    var n := |ks|;
    MeltGroupRowsAt(rows, ks, 0);
    var a :| 0 <= a < |data| && data[a] == t;
    var i := if a < n then a else a - n;
    MeltGroupRowsAt(rows, ks, i);
    assert t == LongRowFor(rows, ks[i], if a < n then Cases else Deaths);
  }

  /** Each key has its `cases` row and its `deaths` row among the melted rows. */
  lemma MeltGroupRowsComplete(rows: seq<Record>, ks: seq<Key>, k: Key, m: Metric)
    requires k in ks
    ensures LongRowFor(rows, k, m) in Melt(GroupRows(rows, ks))
  {
    var i :| 0 <= i < |ks| && ks[i] == k;
    MeltGroupRowsAt(rows, ks, i);
    if m == Cases {
      assert Melt(GroupRows(rows, ks))[i] == LongRowFor(rows, k, m);
    } else {
      assert Melt(GroupRows(rows, ks))[|ks| + i] == LongRowFor(rows, k, m);
    }
  }

  /**
   * The melted group table holds, without duplicates, exactly one `cases`
   * row and one `deaths` row for each distinct key of the input, carrying
   * that key and the sum of that column over the input rows with the key.
   */
  lemma GroupedLongTable(rows: seq<Record>)
    ensures |Melt(GroupBy(rows))| == 2 * |Unique(Keys(rows))|
    ensures Distinct(Melt(GroupBy(rows)))
    ensures forall t :: t in Melt(GroupBy(rows)) <==>
      exists r, m :: r in rows && t == LongRowFor(rows, KeyOf(r), m)
  {
    var ks := GroupKeys(rows);
    GroupKeysSpec(rows);
    MeltShape(GroupRows(rows, ks));
    MeltGroupRowsDistinct(rows, ks);
    forall t ensures t in Melt(GroupBy(rows)) <==> exists r, m :: r in rows && t == LongRowFor(rows, KeyOf(r), m) {
      if t in Melt(GroupBy(rows)) {
        MeltGroupRowsSound(rows, ks, t);
        var k, m :| k in ks && t == LongRowFor(rows, k, m);
        var r :| r in rows && KeyOf(r) == k;
      }
      if exists r, m :: r in rows && t == LongRowFor(rows, KeyOf(r), m) {
        var r, m :| r in rows && t == LongRowFor(rows, KeyOf(r), m);
        MeltGroupRowsComplete(rows, ks, KeyOf(r), m);
      }
    }
  }

  /**
   * Melting the groups of `ks` lists all `cases` rows first and then all
   * `deaths` rows, the i-th row of each half carrying the key `ks[i]`.
   */
  lemma MeltGroupRowsOrder(rows: seq<Record>, ks: seq<Key>)
    ensures |Melt(GroupRows(rows, ks))| == 2 * |ks|
    ensures forall i :: 0 <= i < |ks| ==>
      Melt(GroupRows(rows, ks))[i].kind == "cases" && LongKey(Melt(GroupRows(rows, ks))[i]) == ks[i]
    ensures forall i :: 0 <= i < |ks| ==>
      Melt(GroupRows(rows, ks))[|ks|..][i].kind == "deaths" && LongKey(Melt(GroupRows(rows, ks))[|ks|..][i]) == ks[i]
  {
    var data := Melt(GroupRows(rows, ks));
    MeltShape(GroupRows(rows, ks));
    forall i | 0 <= i < |ks|
      ensures data[i].kind == "cases" && LongKey(data[i]) == ks[i]
      ensures data[|ks|..][i].kind == "deaths" && LongKey(data[|ks|..][i]) == ks[i]
    {
      MeltGroupRowsAt(rows, ks, i);
      assert data[|ks|..][i] == data[|ks| + i];
    }
  }

  /**
   * The layout of a melted table of key-sorted groups: an even number of
   * rows, the first half `cases` and the second half `deaths`, the i-th row
   * of each half sharing a key, and the keys of the halves strictly
   * ascending.
   */
  predicate CasesThenDeathsByKey(data: seq<LongRow>) {
    && |data| % 2 == 0
    && (forall i :: 0 <= i < |data| / 2 ==>
         && data[i].kind == "cases" && data[|data| / 2..][i].kind == "deaths"
         && LongKey(data[i]) == LongKey(data[|data| / 2..][i]))
    && (forall i, j :: 0 <= i < j < |data| / 2 ==> KeyLess(LongKey(data[i]), LongKey(data[j])))
  }

  /** Melting the groups of strictly ascending keys gives that layout. */
  lemma MeltGroupRowsLayout(rows: seq<Record>, ks: seq<Key>)
    requires StrictlyAscending(KeyLess, ks)
    ensures CasesThenDeathsByKey(Melt(GroupRows(rows, ks)))
  {
    var data := Melt(GroupRows(rows, ks));
    MeltGroupRowsOrder(rows, ks);
    assert |data| / 2 == |ks|;
  }

  /** The melted group table has that layout. */
  lemma GroupedLongLayout(rows: seq<Record>)
    ensures CasesThenDeathsByKey(Melt(GroupBy(rows)))
  {
    GroupKeysSpec(rows);
    MeltGroupRowsLayout(rows, GroupKeys(rows));
  }
}
