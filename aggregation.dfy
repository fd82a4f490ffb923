/**
 * `plot_df.groupby('Category')['Income'].sum().reset_index()
 *   .sort_values('Income', ascending=False)`: one bar per category with the
 * summed income, in non-increasing order of income.
 */
module Aggregation {
  import opened Optional

  /** A row as the aggregation sees it: its Category and its Income, either possibly missing. */
  datatype Entry = Entry(category: Option<string>, income: Option<real>)

  /** One row of the aggregated frame. */
  datatype Bar = Bar(category: string, income: real)

  /** A missing income adds nothing to a sum (pandas skips NaN). */
  function IncomeOf(e: Entry): real {
    match e.income
    case Some(x) => x
    case None => 0.0
  }

  /** The distinct non-missing categories, the ones `nunique()` counts and `groupby` keys on. */
  function Categories(es: seq<Entry>): set<string> {
    set e | e in es && e.category.Some? :: e.category.value
  }

  /** The income summed over the rows of category `c`. */
  function Total(es: seq<Entry>, c: string): real {
    if es == [] then 0.0
    else (if es[0].category == Some(c) then IncomeOf(es[0]) else 0.0) + Total(es[1..], c)
  }

  /** The income summed over every row that has a category. */
  function CategorisedIncome(es: seq<Entry>): real {
    if es == [] then 0.0
    else (if es[0].category.Some? then IncomeOf(es[0]) else 0.0) + CategorisedIncome(es[1..])
  }

  predicate Distinct(ks: seq<string>) {
    forall i, j :: 0 <= i < j < |ks| ==> ks[i] != ks[j]
  }

  lemma CategoriesCons(es: seq<Entry>)
    requires es != []
    ensures Categories(es) == Categories(es[1..]) + (if es[0].category.Some? then {es[0].category.value} else {})
  {
    assert forall e :: e in es <==> e == es[0] || e in es[1..];
  }

  /** The group keys: each category of `es` once. */
  function Keys(es: seq<Entry>): (ks: seq<string>)
    ensures Distinct(ks)
    ensures forall c :: c in ks <==> c in Categories(es)
  {
    if es == [] then []
    else
      var rest := Keys(es[1..]);
      CategoriesCons(es);
      if es[0].category.Some? && es[0].category.value !in rest then [es[0].category.value] + rest else rest
  }

  lemma {:induction false} DistinctCard(ks: seq<string>)
    requires Distinct(ks)
    ensures |set k | k in ks| == |ks|
  {
    if ks != [] {
      DistinctCard(ks[1..]);
      assert (set k | k in ks) == {ks[0]} + (set k | k in ks[1..]);
      assert ks[0] !in ks[1..];
    }
  }

  /** The bar of each key, unsorted. */
  function MakeBars(es: seq<Entry>, ks: seq<string>): (bs: seq<Bar>)
    ensures |bs| == |ks|
    ensures forall k :: 0 <= k < |ks| ==> bs[k] == Bar(ks[k], Total(es, ks[k]))
  {
    if ks == [] then [] else [Bar(ks[0], Total(es, ks[0]))] + MakeBars(es, ks[1..])
  }

  function SumBars(bs: seq<Bar>): real {
    if bs == [] then 0.0 else bs[0].income + SumBars(bs[1..])
  }

  predicate SortedDesc(bs: seq<Bar>) {
    forall i, j :: 0 <= i < j < |bs| ==> bs[i].income >= bs[j].income
  }

  predicate DistinctCategories(bs: seq<Bar>) {
    forall i, j :: 0 <= i < j < |bs| ==> bs[i].category != bs[j].category
  }

  /** Places `b` before the first bar of `bs` whose income is not above its own. */
  function Insert(b: Bar, bs: seq<Bar>): (r: seq<Bar>)
    ensures |r| == |bs| + 1
    ensures forall x :: x in r <==> x == b || x in bs
  {
    if bs == [] || b.income >= bs[0].income then [b] + bs
    else
      assert forall x :: x in bs <==> x == bs[0] || x in bs[1..];
      [bs[0]] + Insert(b, bs[1..])
  }

  /** Inserting into a non-increasing sequence keeps it non-increasing. */
  lemma {:induction false} InsertSorted(b: Bar, bs: seq<Bar>)
    requires SortedDesc(bs)
    ensures SortedDesc(Insert(b, bs))
  {
    if bs != [] && b.income < bs[0].income {
      var rest := Insert(b, bs[1..]);
      InsertSorted(b, bs[1..]);
      forall x | x in rest ensures x.income <= bs[0].income {
        if x != b {
          var k :| 0 <= k < |bs[1..]| && bs[1..][k] == x;
          assert bs[k + 1] == x;
        }
      }
      var r := [bs[0]] + rest;
      assert forall j :: 0 < j < |r| ==> r[j] == rest[j - 1] && r[j] in rest;
    }
  }

  lemma {:induction false} InsertSum(b: Bar, bs: seq<Bar>)
    ensures SumBars(Insert(b, bs)) == b.income + SumBars(bs)
  {
    if bs != [] && b.income < bs[0].income {
      InsertSum(b, bs[1..]);
    }
  }

  lemma {:induction false} InsertPermutes(b: Bar, bs: seq<Bar>)
    ensures multiset(Insert(b, bs)) == multiset(bs) + multiset{b}
  {
    if bs != [] && b.income < bs[0].income {
      InsertPermutes(b, bs[1..]);
      assert bs == [bs[0]] + bs[1..];
    }
  }

  /** `sort_values(ascending=False)`: non-increasing, with the same bars and so the same total. */
  function SortDesc(bs: seq<Bar>): (r: seq<Bar>)
    ensures SortedDesc(r)
    ensures |r| == |bs|
    ensures forall x :: x in r <==> x in bs
    ensures SumBars(r) == SumBars(bs)
  {
    if bs == [] then []
    else
      var sorted := SortDesc(bs[1..]);
      InsertSorted(bs[0], sorted);
      InsertSum(bs[0], sorted);
      assert forall x :: x in bs <==> x == bs[0] || x in bs[1..];
      Insert(bs[0], sorted)
  }

  lemma {:induction false} SortDescPermutes(bs: seq<Bar>)
    ensures multiset(SortDesc(bs)) == multiset(bs)
  {
    if bs != [] {
      SortDescPermutes(bs[1..]);
      InsertPermutes(bs[0], SortDesc(bs[1..]));
      assert bs == [bs[0]] + bs[1..];
    }
  }

  lemma {:induction false} InsertDistinct(b: Bar, bs: seq<Bar>)
    requires DistinctCategories(bs)
    requires forall x :: x in bs ==> x.category != b.category
    ensures DistinctCategories(Insert(b, bs))
  {
    if bs != [] && b.income < bs[0].income {
      InsertDistinct(b, bs[1..]);
      var rest := Insert(b, bs[1..]);
      forall x | x in rest ensures x.category != bs[0].category {
        if x != b {
          var k :| 0 <= k < |bs[1..]| && bs[1..][k] == x;
          assert bs[k + 1] == x;
        }
      }
      assert Insert(b, bs) == [bs[0]] + rest;
    } else {
      assert Insert(b, bs) == [b] + bs;
      assert forall k :: 0 <= k < |bs| ==> bs[k] in bs;
    }
  }

  /** Sorting keeps one bar per category. */
  lemma {:induction false} SortDescDistinct(bs: seq<Bar>)
    requires DistinctCategories(bs)
    ensures DistinctCategories(SortDesc(bs))
  {
    if bs != [] {
      SortDescDistinct(bs[1..]);
      forall x | x in SortDesc(bs[1..]) ensures x.category != bs[0].category {
        var k :| 0 <= k < |bs[1..]| && bs[1..][k] == x;
        assert bs[k + 1] == x;
      }
      InsertDistinct(bs[0], SortDesc(bs[1..]));
    }
  }

  lemma {:induction false} ZeroTotals(ks: seq<string>)
    ensures SumBars(MakeBars([], ks)) == 0.0
  {
    if ks != [] {
      ZeroTotals(ks[1..]);
    }
  }

  /** The first row adds its income to the bar of its category, when that category is a key. */
  lemma {:induction false} SplitFirst(es: seq<Entry>, ks: seq<string>)
    requires es != [] && Distinct(ks)
    ensures SumBars(MakeBars(es, ks)) == SumBars(MakeBars(es[1..], ks))
              + (if es[0].category.Some? && es[0].category.value in ks then IncomeOf(es[0]) else 0.0)
  {
    if ks != [] {
      SplitFirst(es, ks[1..]);
      assert ks[0] !in ks[1..];
    }
  }

  /** Summing the per-category totals over keys that cover every category gives the categorised income. */
  lemma {:induction false} SumMakeBars(es: seq<Entry>, ks: seq<string>)
    requires Distinct(ks)
    requires forall e :: e in es && e.category.Some? ==> e.category.value in ks
    ensures SumBars(MakeBars(es, ks)) == CategorisedIncome(es)
  {
    if es == [] {
      ZeroTotals(ks);
    } else {
      SplitFirst(es, ks);
      assert es[0] in es;
      SumMakeBars(es[1..], ks);
    }
  }

  /**
   * The aggregated frame: exactly one bar per distinct non-missing category,
   * carrying that category's summed income; rows with a missing category take
   * no part; the bars are in non-increasing income order (nothing is promised
   * about the order of equal incomes); and the bars add up to the income of all
   * categorised rows.
   */
  function Aggregate(es: seq<Entry>): (bars: seq<Bar>)
    ensures SortedDesc(bars)
    ensures DistinctCategories(bars)
    ensures |bars| == |Categories(es)|
    ensures forall b :: b in bars ==> b.category in Categories(es) && b.income == Total(es, b.category)
    ensures forall c :: c in Categories(es) ==> exists b :: b in bars && b.category == c
    ensures SumBars(bars) == CategorisedIncome(es)
  {
    var ks := Keys(es);
    var unsorted := MakeBars(es, ks);
    AggregateSum(es, ks);
    AggregateShape(es, ks);
    SortDesc(unsorted)
  }

  lemma AggregateSum(es: seq<Entry>, ks: seq<string>)
    requires ks == Keys(es)
    ensures SumBars(MakeBars(es, ks)) == CategorisedIncome(es)
  {
    assert forall e :: e in es && e.category.Some? ==> e.category.value in Categories(es);
    SumMakeBars(es, ks);
  }

  lemma AggregateShape(es: seq<Entry>, ks: seq<string>)
    requires ks == Keys(es)
    ensures var bars := SortDesc(MakeBars(es, ks));
            && DistinctCategories(bars)
            && |bars| == |Categories(es)|
            && forall c :: c in Categories(es) ==> exists b :: b in bars && b.category == c
  {
    var unsorted := MakeBars(es, ks);
    SortDescDistinct(unsorted);
    DistinctCard(ks);
    assert (set k | k in ks) == Categories(es);
    var bars := SortDesc(unsorted);
    forall c | c in Categories(es) ensures exists b :: b in bars && b.category == c {
      var k :| 0 <= k < |ks| && ks[k] == c;
      assert unsorted[k] in unsorted;
    }
  }
}
