/**
 * The dashboard's logic: the option lists of the state and date dropdowns,
 * the county-options callback and the bar-chart callback up to the long
 * table handed to the figure.
 */
module Dashboard {
  import opened Seqs
  import opened Sorting
  import opened Lex
  import opened Table
  import opened Aggregate

  /** The `value` of a multi-select dropdown: `None` until something is picked, then a list. */
  datatype DropdownValue = Null | Items(items: seq<string>)

  /** Python truthiness of a dropdown value: neither `None` nor the empty list. */
  predicate Chosen(v: DropdownValue) {
    v.Items? && |v.items| > 0
  }

  /** An entry `{'label': x, 'value': x}` of a dropdown's option list; `caption` is its `'label'` (a reserved word in Dafny). */
  datatype Choice = Choice(caption: string, value: string)

  /** The option list offering each of `xs`, in the order given. */
  function Choices(xs: seq<string>): (opts: seq<Choice>)
    ensures |opts| == |xs|
    ensures forall i :: 0 <= i < |xs| ==> opts[i].caption == xs[i] && opts[i].value == xs[i]
  {
    if xs == [] then [] else [Choice(xs[0], xs[0])] + Choices(xs[1..])
  }

  /** `sorted(column.unique())`. */
  function SortedUnique(xs: seq<string>): seq<string> {
    Sort(Less, Unique(xs))
  }

  /** `sorted(column.unique())` lists each value of the column once, strictly ascending. */
  lemma SortedUniqueSpec(xs: seq<string>)
    ensures StrictlyAscending(Less, SortedUnique(xs))
    ensures forall x :: x in SortedUnique(xs) <==> x in xs
  {
    var u := Unique(xs);
    LessOrder();
    SortDistinct(Less, u);
    forall x ensures x in u <==> x in xs {
      if x in xs {
        var i :| 0 <= i < |xs| && xs[i] == x;
      }
    }
  }

  // ---------------------------------------------------------------- states

  /** The values offered by the state dropdown. */
  function StateValues(df: seq<Record>): seq<string> {
    SortedUnique(Col(df, State))
  }

  /** The state dropdown's option list. */
  function StateOptions(df: seq<Record>): seq<Choice> {
    Choices(StateValues(df))
  }

  /**
   * Every state of the table is offered exactly once, every offered state
   * occurs in some row, and the offers are strictly ascending; each option's
   * label and value are the state itself.
   */
  lemma StateOptionsSpec(df: seq<Record>)
    ensures StrictlyAscending(Less, StateValues(df))
    ensures forall x :: x in StateValues(df) <==> exists r :: r in df && r.state == x
    ensures |StateOptions(df)| == |StateValues(df)|
    ensures forall i :: 0 <= i < |StateOptions(df)| ==>
      StateOptions(df)[i] == Choice(StateValues(df)[i], StateValues(df)[i])
  {
    SortedUniqueSpec(Col(df, State));
    forall x ensures x in Col(df, State) <==> exists r :: r in df && r.state == x {
      InCol(df, State, x);
    }
  }

  /** The offered states are the only strictly ascending list of the table's states. */
  lemma StateValuesCanonical(df: seq<Record>, t: seq<string>)
    requires StrictlyAscending(Less, t)
    requires forall x :: x in t <==> exists r :: r in df && r.state == x
    ensures t == StateValues(df)
  {
    StateOptionsSpec(df);
    LessOrder();
    StrictlyAscendingUnique(Less, t, StateValues(df));
  }

  // ----------------------------------------------------------------- dates

  /** The values offered by the date dropdown. */
  function DateValues(df: seq<Record>): seq<string> {
    Unique(Col(df, Date))
  }

  /** The date dropdown's option list. */
  function DateOptions(df: seq<Record>): seq<Choice> {
    Choices(DateValues(df))
  }

  /**
   * Every date of the table is offered exactly once, every offered date
   * occurs in some row, and the offers follow the order in which the dates
   * first appear in the table.
   */
  lemma DateOptionsSpec(df: seq<Record>)
    ensures Distinct(DateValues(df))
    ensures forall x :: x in DateValues(df) <==> exists r :: r in df && r.date == x
    ensures forall i, j :: 0 <= i < j < |DateValues(df)| ==>
      FirstIndex(Col(df, Date), DateValues(df)[i]) < FirstIndex(Col(df, Date), DateValues(df)[j])
    ensures |DateOptions(df)| == |DateValues(df)|
    ensures forall i :: 0 <= i < |DateOptions(df)| ==>
      DateOptions(df)[i] == Choice(DateValues(df)[i], DateValues(df)[i])
  {
    var col := Col(df, Date);
    UniqueFirstOccurrenceOrder(col);
    forall x ensures x in DateValues(df) <==> exists r :: r in df && r.date == x {
      InCol(df, Date, x);
      if x in col {
        var i :| 0 <= i < |col| && col[i] == x;
      }
    }
  }

  /** The dates are not sorted: a later date listed first in the table is offered first. */
  lemma DateOptionsKeepTableOrder()
    ensures var df := [Record("NY", "Kings", "2020-03-02", 1, 0), Record("NY", "Kings", "2020-03-01", 1, 0)];
      && DateValues(df) == ["2020-03-02", "2020-03-01"]
      && Less("2020-03-01", "2020-03-02")
  {
    var df := [Record("NY", "Kings", "2020-03-02", 1, 0), Record("NY", "Kings", "2020-03-01", 1, 0)];
    var later, earlier := "2020-03-02", "2020-03-01";
    assert Col(df, Date) == [later, earlier] by {
      assert df[1..] == [df[1]] && df[1..][1..] == [];
    }
    assert later != earlier by {
      assert later[9] != earlier[9];
    }
    assert Unique([later]) == [later] by {
      var one: seq<string> := [later];
      assert one[..0] == [];
    }
    assert Unique([later, earlier]) == [later, earlier] by {
      assert [later, earlier][..1] == [later];
    }
    EarlierDateLess();
  }

  lemma EarlierDateLess()
    ensures Less("2020-03-01", "2020-03-02")
  {
  }

  // -------------------------------------------------------------- counties

  /** The values `update_county_options` offers for the picked states. */
  function CountyValues(df: seq<Record>, selectedStates: DropdownValue): seq<string> {
    if !Chosen(selectedStates) then []
    else SortedUnique(Col(WhereIn(df, State, selectedStates.items), County))
  }

  /** `update_county_options`: the county dropdown's option list for the picked states. */
  function UpdateCountyOptions(df: seq<Record>, selectedStates: DropdownValue): seq<Choice> {
    Choices(CountyValues(df, selectedStates))
  }

  /**
   * With no state picked the county list is empty. Otherwise it offers,
   * once each and strictly ascending, exactly the counties of the rows whose
   * state is picked.
   */
  lemma UpdateCountyOptionsSpec(df: seq<Record>, selectedStates: DropdownValue)
    ensures !Chosen(selectedStates) ==> UpdateCountyOptions(df, selectedStates) == []
    ensures StrictlyAscending(Less, CountyValues(df, selectedStates))
    ensures forall x :: x in CountyValues(df, selectedStates) <==>
      Chosen(selectedStates) && exists r :: r in df && r.state in selectedStates.items && r.county == x
    ensures |UpdateCountyOptions(df, selectedStates)| == |CountyValues(df, selectedStates)|
    ensures forall i :: 0 <= i < |CountyValues(df, selectedStates)| ==>
      UpdateCountyOptions(df, selectedStates)[i] == Choice(CountyValues(df, selectedStates)[i], CountyValues(df, selectedStates)[i])
  {
    if Chosen(selectedStates) {
      var picked := WhereIn(df, State, selectedStates.items);
      SortedUniqueSpec(Col(picked, County));
      forall x ensures x in Col(picked, County) <==> exists r :: r in df && r.state in selectedStates.items && r.county == x {
        InCol(picked, County, x);
        forall r ensures r in picked <==> r in df && r.state in selectedStates.items {
          InWhereIn(df, State, selectedStates.items, r);
        }
      }
    }
  }

  // ------------------------------------------------------------- bar chart

  /** What the chart callback returns: `dash.no_update`, or the long table the figure is drawn from. */
  datatype ChartUpdate = NoUpdate | Chart(data: seq<LongRow>)

  /** `filtered_df` after the three guarded `isin` filters. */
  function Filtered(df: seq<Record>, states: DropdownValue, counties: DropdownValue, dates: DropdownValue): seq<Record> {
    var byState := if Chosen(states) then WhereIn(df, State, states.items) else df;
    var byCounty := if Chosen(counties) then WhereIn(byState, County, counties.items) else byState;
    if Chosen(dates) then WhereIn(byCounty, Date, dates.items) else byCounty
  }

  /** `update_bar_chart`, up to the table passed to the figure. */
  function UpdateBarChart(df: seq<Record>, states: DropdownValue, counties: DropdownValue, dates: DropdownValue): ChartUpdate {
    if !(Chosen(states) && Chosen(counties) && Chosen(dates)) then NoUpdate
    else Chart(Melt(GroupBy(Filtered(df, states, counties, dates))))
  }

  /** The chart is left as it is exactly when one of the three dropdowns is `None` or empty. */
  lemma UpdateBarChartNoUpdate(df: seq<Record>, states: DropdownValue, counties: DropdownValue, dates: DropdownValue)
    ensures UpdateBarChart(df, states, counties, dates) == NoUpdate
        <==> !Chosen(states) || !Chosen(counties) || !Chosen(dates)
  {
  }

  /**
   * Once all three dropdowns hold values, the guards are all true and the
   * filtered rows are exactly the rows lying in all three selections, in
   * table order, whichever order the filters run in.
   */
  lemma FilteredSpec(df: seq<Record>, states: DropdownValue, counties: DropdownValue, dates: DropdownValue)
    requires Chosen(states) && Chosen(counties) && Chosen(dates)
    ensures Filtered(df, states, counties, dates) == WhereMatching(df, states.items, counties.items, dates.items)
    ensures Filtered(df, states, counties, dates)
         == WhereIn(WhereIn(WhereIn(df, Date, dates.items), County, counties.items), State, states.items)
    ensures forall r :: r in Filtered(df, states, counties, dates) <==>
      r in df && Matches(r, states.items, counties.items, dates.items)
  {
    var s, c, d := states.items, counties.items, dates.items;
    WhereInChain(df, s, c, d);
    WhereInCommute(df, State, s, County, c);
    WhereInCommute(WhereIn(df, County, c), State, s, Date, d);
    WhereInCommute(df, County, c, Date, d);
    forall r ensures r in Filtered(df, states, counties, dates) <==> r in df && Matches(r, s, c, d) {
      InWhereMatching(df, s, c, d, r);
    }
  }

  /**
   * With all three dropdowns set, the chart gets a long table without
   * duplicate rows, two rows for each distinct (state, county, date) key of
   * the matching rows: for each such key exactly a `cases` row and a
   * `deaths` row, carrying the key and the sum of that column over the
   * table's rows with that key (all of which match, the key deciding the
   * match), and no other row.
   */
  lemma UpdateBarChartSpec(df: seq<Record>, states: DropdownValue, counties: DropdownValue, dates: DropdownValue)
    requires Chosen(states) && Chosen(counties) && Chosen(dates)
    ensures UpdateBarChart(df, states, counties, dates).Chart?
    ensures |UpdateBarChart(df, states, counties, dates).data|
         == 2 * |Unique(Keys(WhereMatching(df, states.items, counties.items, dates.items)))|
    ensures Distinct(UpdateBarChart(df, states, counties, dates).data)
    ensures forall t :: t in UpdateBarChart(df, states, counties, dates).data <==>
      exists r, m :: r in df && Matches(r, states.items, counties.items, dates.items) && t == LongRowFor(df, KeyOf(r), m)
  {
    var s, c, d := states.items, counties.items, dates.items;
    var matching := WhereMatching(df, s, c, d);
    FilteredSpec(df, states, counties, dates);
    GroupedLongTable(matching);
    var data := Melt(GroupBy(matching));
    forall t ensures t in data <==> exists r, m :: r in df && Matches(r, s, c, d) && t == LongRowFor(df, KeyOf(r), m) {
      if t in data {
        var r, m :| r in matching && t == LongRowFor(matching, KeyOf(r), m);
        InWhereMatching(df, s, c, d, r);
        SumForWhereMatching(df, s, c, d, KeyOf(r), m);
        assert t == LongRowFor(df, KeyOf(r), m);
      }
      if exists r, m :: r in df && Matches(r, s, c, d) && t == LongRowFor(df, KeyOf(r), m) {
        var r, m :| r in df && Matches(r, s, c, d) && t == LongRowFor(df, KeyOf(r), m);
        InWhereMatching(df, s, c, d, r);
        SumForWhereMatching(df, s, c, d, KeyOf(r), m);
        assert t == LongRowFor(matching, KeyOf(r), m);
      }
    }
  }

  /**
   * The `cases` rows of the chart's table add up to the `cases` total of the
   * matching rows, and the `deaths` rows to their `deaths` total.
   */
  lemma UpdateBarChartTotals(df: seq<Record>, states: DropdownValue, counties: DropdownValue, dates: DropdownValue, m: Metric)
    requires Chosen(states) && Chosen(counties) && Chosen(dates)
    ensures KindTotal(UpdateBarChart(df, states, counties, dates).data, MetricName(m))
         == Total(WhereMatching(df, states.items, counties.items, dates.items), m)
  {
    var matching := WhereMatching(df, states.items, counties.items, dates.items);
    FilteredSpec(df, states, counties, dates);
    MeltTotal(GroupBy(matching), m);
    GroupByTotal(matching, m);
  }

  /**
   * With all three dropdowns set, the chart's table lists a `cases` row for
   * each group and then a `deaths` row for each group, both halves in
   * ascending (state, county, date) order.
   */
  lemma UpdateBarChartOrder(df: seq<Record>, states: DropdownValue, counties: DropdownValue, dates: DropdownValue)
    requires Chosen(states) && Chosen(counties) && Chosen(dates)
    ensures UpdateBarChart(df, states, counties, dates).Chart?
    ensures CasesThenDeathsByKey(UpdateBarChart(df, states, counties, dates).data)
  {
    GroupedLongLayout(Filtered(df, states, counties, dates));
  }

  /** Selections that no row matches, such as a county left over from other states, give an empty chart. */
  lemma UpdateBarChartNoMatch(df: seq<Record>, states: DropdownValue, counties: DropdownValue, dates: DropdownValue)
    requires Chosen(states) && Chosen(counties) && Chosen(dates)
    requires forall r :: r in df ==> !Matches(r, states.items, counties.items, dates.items)
    ensures UpdateBarChart(df, states, counties, dates) == Chart([])
  {
    UpdateBarChartSpec(df, states, counties, dates);
    var matching := WhereMatching(df, states.items, counties.items, dates.items);
    if matching != [] {
      HeadIsMember(matching);
      InWhereMatching(df, states.items, counties.items, dates.items, matching[0]);
      assert false;
    }
  }

  /** Two Cook County rows of one day are summed; the DuPage row is filtered out. */
  lemma UpdateBarChartExample()
    ensures
      var df := [Record("IL", "Cook", "2020-03-01", 5, 0),
                 Record("IL", "Cook", "2020-03-01", 3, 1),
                 Record("IL", "DuPage", "2020-03-01", 2, 0)];
      UpdateBarChart(df, Items(["IL"]), Items(["Cook"]), Items(["2020-03-01"]))
        == Chart([LongRow("IL", "Cook", "2020-03-01", "cases", 8), LongRow("IL", "Cook", "2020-03-01", "deaths", 1)])
  {
    var df := [Record("IL", "Cook", "2020-03-01", 5, 0),
               Record("IL", "Cook", "2020-03-01", 3, 1),
               Record("IL", "DuPage", "2020-03-01", 2, 0)];
    var cook := [Record("IL", "Cook", "2020-03-01", 5, 0), Record("IL", "Cook", "2020-03-01", 3, 1)];
    ExampleFiltered();
    ExampleGrouped();
    assert Filtered(df, Items(["IL"]), Items(["Cook"]), Items(["2020-03-01"])) == cook;
  }

  /** The three filters of the example keep the two Cook County rows. */
  lemma ExampleFiltered()
    ensures
      var df := [Record("IL", "Cook", "2020-03-01", 5, 0),
                 Record("IL", "Cook", "2020-03-01", 3, 1),
                 Record("IL", "DuPage", "2020-03-01", 2, 0)];
      Filtered(df, Items(["IL"]), Items(["Cook"]), Items(["2020-03-01"]))
        == [Record("IL", "Cook", "2020-03-01", 5, 0), Record("IL", "Cook", "2020-03-01", 3, 1)]
  {
    var df := [Record("IL", "Cook", "2020-03-01", 5, 0),
               Record("IL", "Cook", "2020-03-01", 3, 1),
               Record("IL", "DuPage", "2020-03-01", 2, 0)];
    var cook := [df[0], df[1]];
    assert df[1..] == [df[1], df[2]] && df[2..] == [df[2]] && df[3..] == [];
    assert cook[1..] == [df[1]] && cook[2..] == [];
    assert "DuPage" != "Cook";
    assert WhereIn([df[2]], State, ["IL"]) == [df[2]];
    assert WhereIn(df, State, ["IL"]) == df;
    assert WhereIn([df[2]], County, ["Cook"]) == [];
    assert WhereIn(df, County, ["Cook"]) == cook;
    assert WhereIn(cook, Date, ["2020-03-01"]) == cook;
  }

  /** The two Cook County rows form one group, melted into a `cases` row and a `deaths` row. */
  lemma ExampleGrouped()
    ensures
      var cook := [Record("IL", "Cook", "2020-03-01", 5, 0), Record("IL", "Cook", "2020-03-01", 3, 1)];
      Melt(GroupBy(cook))
        == [LongRow("IL", "Cook", "2020-03-01", "cases", 8), LongRow("IL", "Cook", "2020-03-01", "deaths", 1)]
  {
    ExampleKeys();
    ExampleSums();
  }

  /** Both Cook County rows carry the same key. */
  lemma ExampleKeys()
    ensures
      var cook := [Record("IL", "Cook", "2020-03-01", 5, 0), Record("IL", "Cook", "2020-03-01", 3, 1)];
      Unique(Keys(cook)) == [Key("IL", "Cook", "2020-03-01")]
  {
    var cook := [Record("IL", "Cook", "2020-03-01", 5, 0), Record("IL", "Cook", "2020-03-01", 3, 1)];
    var k := Key("IL", "Cook", "2020-03-01");
    assert Keys(cook) == [k, k];
    assert Unique([k]) == [k] by {
      var one: seq<Key> := [k];
      assert one[..0] == [];
    }
    assert Unique([k, k]) == [k] by {
      assert [k, k][..1] == [k];
    }
  }

  /** The key's sums are 5 + 3 cases and 0 + 1 deaths. */
  lemma ExampleSums()
    ensures
      var cook := [Record("IL", "Cook", "2020-03-01", 5, 0), Record("IL", "Cook", "2020-03-01", 3, 1)];
      var k := Key("IL", "Cook", "2020-03-01");
      SumFor(cook, k, Cases) == 8 && SumFor(cook, k, Deaths) == 1
  {
  }
}
