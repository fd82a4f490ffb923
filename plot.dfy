/**
 * `plot_aggregation` without the drawing: from the loaded frame and the two
 * check-box flags to the bars of the chart and its title.
 */
module Plot {
  import opened Optional
  import opened Frame
  import opened Cleanup
  import opened Aggregation
  import opened Grouping

  const BaseTitle: string := "Total Income by Category (Sorted)"
  const TradeShowSuffix: string := " - Trade Shows Grouped"
  const TentSuffix: string := " - Tents Grouped"

  /** The chart title built from the flags: the base text first, the Tent suffix last when grouped. */
  function Title(groupTradeShow: bool, groupTent: bool): (t: string)
    ensures |t| == |BaseTitle| + (if groupTradeShow then |TradeShowSuffix| else 0) + (if groupTent then |TentSuffix| else 0)
    ensures |t| >= |BaseTitle| && t[..|BaseTitle|] == BaseTitle
    ensures groupTent ==> |t| >= |TentSuffix| && t[|t| - |TentSuffix|..] == TentSuffix
  {
    BaseTitle + (if groupTradeShow then TradeShowSuffix else "") + (if groupTent then TentSuffix else "")
  }

  /**
   * The title starts with the base text, carries the Trade Show suffix right
   * after it exactly when that flag is set, and ends with the Tent suffix
   * exactly when that flag is set, with nothing else in it; so different flags
   * give different titles.
   */
  lemma TitleSpec(groupTradeShow: bool, groupTent: bool)
    ensures var t := Title(groupTradeShow, groupTent);
            && |t| >= |BaseTitle| && t[..|BaseTitle|] == BaseTitle
            && (groupTradeShow <==> |t| >= |BaseTitle| + |TradeShowSuffix|
                                    && t[|BaseTitle|..|BaseTitle| + |TradeShowSuffix|] == TradeShowSuffix)
            && (groupTent <==> |t| >= |TentSuffix| && t[|t| - |TentSuffix|..] == TentSuffix)
            && |t| == |BaseTitle| + (if groupTradeShow then |TradeShowSuffix| else 0) + (if groupTent then |TentSuffix| else 0)
    ensures forall a: bool, b: bool :: Title(a, b) == Title(groupTradeShow, groupTent) ==> a == groupTradeShow && b == groupTent
  {
    var t := Title(groupTradeShow, groupTent);
    var head := BaseTitle + (if groupTradeShow then TradeShowSuffix else "");
    assert t == head + (if groupTent then TentSuffix else "");
    assert t[..|BaseTitle|] == BaseTitle;
    if groupTradeShow {
      assert t[|BaseTitle|..|BaseTitle| + |TradeShowSuffix|] == TradeShowSuffix;
    }
    if groupTent {
      assert t[|t| - |TentSuffix|..] == TentSuffix;
    } else if groupTradeShow {
      assert t[|t| - |TentSuffix|] == 'd' != TentSuffix[0];
    } else {
      assert t[|t| - 1] == ')' != TentSuffix[|TentSuffix| - 1];
    }
  }

  /** What `plot_aggregation` can end with. */
  datatype PlotOutcome =
    | NoData                          // called with None: returns at once
    | KeyError(column: string)        // the frame lacks a column it indexes
    | Chart(bars: seq<Bar>, title: string)

  /**
   * The cell types the loaded frame guarantees in the two columns the plot
   * reads: no number under Category, no text under Income.
   */
  predicate PlotReady(t: Table)
    requires WellFormed(t)
  {
    forall i, j :: 0 <= i < |t.rows| && 0 <= j < |t.columns| ==>
      && (t.columns[j] == "Category" ==> !t.rows[i][j].Number?)
      && (t.columns[j] == "Income" ==> !t.rows[i][j].Text?)
  }

  /** Every frame `load_csv` returns is one the plot can read. */
  lemma LoadedIsPlotReady(t: Table)
    requires WellFormed(t) && Typed(t)
    ensures PlotReady(t)
  {
    assert "Category" in StrCols && "Income" in NumericCols;
  }

  function CategoryCell(c: Cell): Option<string> {
    if c.Text? then Some(c.s) else None
  }

  function IncomeCell(c: Cell): Option<real> {
    if c.Number? then Some(c.x) else None
  }

  /** The Category and Income columns of the frame, row by row. */
  function Entries(t: Table, category: nat, income: nat): (es: seq<Entry>)
    requires WellFormed(t) && category < |t.columns| && income < |t.columns|
    ensures |es| == |t.rows|
  {
    seq(|t.rows|, i requires 0 <= i < |t.rows| => Entry(CategoryCell(t.rows[i][category]), IncomeCell(t.rows[i][income])))
  }

  /**
   * `plot_aggregation(df, canvas_frame, group_trade_show, group_tent)`.
   * None in, nothing done. A frame without Category or Income raises KeyError
   * (Category is indexed first). Otherwise the chart holds the aggregate of the
   * grouped copy, with the title the flags select; there are no more bars than
   * distinct categories before grouping, and the bars add up to the income of
   * every row of the frame that has a category (the total printed at the end).
   */
  method PlotAggregation(df: Option<Table>, groupTradeShow: bool, groupTent: bool) returns (out: PlotOutcome)
    requires df.Some? ==> WellFormed(df.value) && PlotReady(df.value)
    ensures df.None? <==> out.NoData?
    ensures out == KeyError("Category") <==> df.Some? && "Category" !in df.value.columns
    ensures out == KeyError("Income") <==> df.Some? && "Category" in df.value.columns && "Income" !in df.value.columns
    ensures out.Chart? <==> df.Some? && "Category" in df.value.columns && "Income" in df.value.columns
    ensures out.Chart? ==>
              var t := df.value;
              var es := Entries(t, IndexOf(t.columns, "Category").value, IndexOf(t.columns, "Income").value);
              && out.title == Title(groupTradeShow, groupTent)
              && out.bars == Aggregate(GroupedEntries(groupTradeShow, groupTent, es))
              && |out.bars| <= |Categories(es)|
              && SumBars(out.bars) == CategorisedIncome(es)
  {
    if df.None? {
      return NoData;
    }
    var t := df.value;
    var category := IndexOf(t.columns, "Category");
    if category.None? {
      return KeyError("Category");
    }
    var income := IndexOf(t.columns, "Income");
    if income.None? {
      return KeyError("Income");
    }
    var es := Entries(t, category.value, income.value);
    var plotDf := GroupCategories(es, groupTradeShow, groupTent);
    assert plotDf == GroupedEntries(groupTradeShow, groupTent, es);
    var bars := Aggregate(plotDf);
    GroupingNeverAddsCategories(groupTradeShow, groupTent, es);
    GroupingKeepsIncome(groupTradeShow, groupTent, es);
    out := Chart(bars, Title(groupTradeShow, groupTent));
  }
}
