/**
 * The optional relabelling `plot_aggregation` applies to its copy of the frame:
 * first the Trade Show pass, then the Tent pass, each under its own flag.
 */
module Grouping {
  import opened Optional
  import opened Text
  import opened Aggregation

  const TradeShow: string := "Trade Show"
  const Tent: string := "Tent"

  /**
   * One pass, `lambda x: target if isinstance(x, str) and target in x else x`:
   * a category containing `target` becomes exactly `target`, any other
   * category and a missing one are left as they are. Both passes use one
   * string as the text they look for and as the new label.
   */
  function Relabel(target: string, c: Option<string>): (r: Option<string>)
    ensures c.None? ==> r.None?
    ensures c.Some? && Contains(c.value, target) ==> r == Some(target)
    ensures c.Some? && !Contains(c.value, target) ==> r == c
  {
    if c.Some? && Contains(c.value, target) then Some(target) else c
  }

  /** `plot_df['Category'] = plot_df['Category'].apply(...)` for one pass. */
  function RelabelColumn(target: string, es: seq<Entry>): (r: seq<Entry>)
    ensures |r| == |es|
    ensures forall i :: 0 <= i < |es| ==> r[i] == Entry(Relabel(target, es[i].category), es[i].income)
  {
    seq(|es|, i requires 0 <= i < |es| => Entry(Relabel(target, es[i].category), es[i].income))
  }

  /**
   * The category a row ends with, stated by precedence instead of by passes:
   * a Trade Show match wins when that flag is set, a Tent match applies only
   * otherwise, and everything else, missing categories included, is kept.
   */
  function Grouped(groupTradeShow: bool, groupTent: bool, c: Option<string>): Option<string> {
    match c
    case None => None
    case Some(s) =>
      if groupTradeShow && Contains(s, TradeShow) then Some(TradeShow)
      else if groupTent && Contains(s, Tent) then Some(Tent)
      else c
  }

  /** The rewritten label "Trade Show" does not contain "Tent", so the Tent pass leaves it alone. */
  lemma TentNotInTradeShow()
    ensures !Contains(TradeShow, Tent)
  {
    forall i | 0 <= i <= |TradeShow| - |Tent| ensures !OccursAt(TradeShow, Tent, i) {
      assert TradeShow[i..i + |Tent|][0] == TradeShow[i] && TradeShow[i..i + |Tent|][1] == TradeShow[i + 1];
      assert i == 0 ==> TradeShow[1] != Tent[1];
      assert i != 0 ==> TradeShow[i] != Tent[0];
    }
  }

  /**
   * The copy `plot_df = df.copy()` relabelled by the passes whose flags are
   * set, in the order of main.py. Each row's category ends as Grouped says,
   * and nothing else of the row changes.
   */
  method GroupCategories(df: seq<Entry>, groupTradeShow: bool, groupTent: bool) returns (plotDf: seq<Entry>)
    ensures |plotDf| == |df|
    ensures forall i :: 0 <= i < |df| ==>
              plotDf[i] == Entry(Grouped(groupTradeShow, groupTent, df[i].category), df[i].income)
  {
    plotDf := df;
    if groupTradeShow {
      plotDf := RelabelColumn(TradeShow, plotDf);
    }
    if groupTent {
      plotDf := RelabelColumn(Tent, plotDf);
    }
    TentNotInTradeShow();
  }

  /** The frame GroupCategories returns, as a function of its inputs. */
  function GroupedEntries(groupTradeShow: bool, groupTent: bool, es: seq<Entry>): (r: seq<Entry>)
    ensures |r| == |es|
  {
    seq(|es|, i requires 0 <= i < |es| => Entry(Grouped(groupTradeShow, groupTent, es[i].category), es[i].income))
  }

  /** Grouping an already grouped category changes nothing. */
  lemma GroupedIdempotent(groupTradeShow: bool, groupTent: bool, c: Option<string>)
    ensures Grouped(groupTradeShow, groupTent, Grouped(groupTradeShow, groupTent, c))
            == Grouped(groupTradeShow, groupTent, c)
  {
    ContainsItself(TradeShow);
    ContainsItself(Tent);
    NotContainsLonger(Tent, TradeShow);
  }

  /**
   * Order matters: "Trade Show Tent" ends as "Trade Show" with both flags set,
   * and as "Tent" with only the tent flag set.
   */
  lemma TradeShowTentExample()
    ensures Grouped(true, true, Some("Trade Show Tent")) == Some(TradeShow)
    ensures Grouped(false, true, Some("Trade Show Tent")) == Some(Tent)
    ensures Grouped(true, false, Some("Trade Show Tent")) == Some(TradeShow)
  {
    assert OccursAt("Trade Show Tent", TradeShow, 0);
    assert OccursAt("Trade Show Tent", Tent, 11);
  }

  /** The label a present category ends with. */
  function GroupLabel(groupTradeShow: bool, groupTent: bool, s: string): string {
    Grouped(groupTradeShow, groupTent, Some(s)).value
  }

  lemma {:induction false} ImageCard(groupTradeShow: bool, groupTent: bool, s: set<string>)
    ensures |set x | x in s :: GroupLabel(groupTradeShow, groupTent, x)| <= |s|
  {
    if s != {} {
      var x :| x in s;
      ImageCard(groupTradeShow, groupTent, s - {x});
      assert (set y | y in s :: GroupLabel(groupTradeShow, groupTent, y))
             == (set y | y in s - {x} :: GroupLabel(groupTradeShow, groupTent, y)) + {GroupLabel(groupTradeShow, groupTent, x)};
    }
  }

  lemma SubsetCard(a: set<string>, b: set<string>)
    requires a <= b
    ensures |a| <= |b|
  {
    assert b == a + (b - a);
  }

  /**
   * Grouping maps each category to one label, so the number of distinct
   * categories (`nunique()` after grouping) never exceeds the number before.
   */
  lemma GroupingNeverAddsCategories(groupTradeShow: bool, groupTent: bool, es: seq<Entry>)
    ensures |Categories(GroupedEntries(groupTradeShow, groupTent, es))| <= |Categories(es)|
  {
    var g := GroupedEntries(groupTradeShow, groupTent, es);
    var image := set x | x in Categories(es) :: GroupLabel(groupTradeShow, groupTent, x);
    forall c | c in Categories(g) ensures c in image {
      var e :| e in g && e.category.Some? && e.category.value == c;
      var i :| 0 <= i < |g| && g[i] == e;
      assert es[i] in es;
      assert es[i].category.Some?;
      assert es[i].category.value in Categories(es);
      assert GroupLabel(groupTradeShow, groupTent, es[i].category.value) == c;
    }
    SubsetCard(Categories(g), image);
    ImageCard(groupTradeShow, groupTent, Categories(es));
  }

  /** Grouping keeps every row's income and whether it has a category, so the categorised income is unchanged. */
  lemma {:induction false} GroupingKeepsIncome(groupTradeShow: bool, groupTent: bool, es: seq<Entry>)
    ensures CategorisedIncome(GroupedEntries(groupTradeShow, groupTent, es)) == CategorisedIncome(es)
  {
    if es != [] {
      GroupingKeepsIncome(groupTradeShow, groupTent, es[1..]);
      assert GroupedEntries(groupTradeShow, groupTent, es)[1..] == GroupedEntries(groupTradeShow, groupTent, es[1..]);
    }
  }
}
