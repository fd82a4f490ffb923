/**
 * A worked run of the grouping and the aggregation: two tent rentals and one
 * audio rental, tent grouping on and trade-show grouping off.
 */
module Scenario {
  import opened Optional
  import opened Text
  import opened Aggregation
  import opened Grouping

  const Rentals: seq<Entry> := [Entry(Some("Tent - 20x20"), Some(1000.0)), Entry(Some("Tent - Frame"), Some(500.0)),
                                Entry(Some("Audio"), Some(2000.0))]
  const GroupedRentals: seq<Entry> := [Entry(Some(Tent), Some(1000.0)), Entry(Some(Tent), Some(500.0)),
                                       Entry(Some("Audio"), Some(2000.0))]

  lemma RentalsGrouped()
    ensures GroupedEntries(false, true, Rentals) == GroupedRentals
  {
    assert OccursAt("Tent - 20x20", Tent, 0);
    assert OccursAt("Tent - Frame", Tent, 0);
    assert !Contains("Audio", Tent) by {
      forall i | 0 <= i <= |"Audio"| - |Tent| ensures !OccursAt("Audio", Tent, i) {
        assert "Audio"[i..i + |Tent|][0] == "Audio"[i];
      }
    }
  }

  lemma GroupedRentalsTotals()
    ensures Categories(GroupedRentals) == {Tent, "Audio"}
    ensures Total(GroupedRentals, Tent) == 1500.0 && Total(GroupedRentals, "Audio") == 2000.0
  {
    var g := GroupedRentals;
    assert g[0] in g && g[2] in g;
    var g1, g2 := g[1..], g[2..];
    assert g1[1..] == g2 && g2[1..] == [];
    assert Total(g2, Tent) == 0.0 && Total(g2, "Audio") == 2000.0;
    assert Total(g1, Tent) == 500.0 && Total(g1, "Audio") == 2000.0;
  }

  /** The two tent rows merge into one "Tent" bar of 1500, which sorts after the "Audio" bar of 2000. */
  lemma TentScenario()
    ensures Aggregate(GroupedEntries(false, true, Rentals)) == [Bar("Audio", 2000.0), Bar(Tent, 1500.0)]
  {
    RentalsGrouped();
    GroupedRentalsTotals();
    var bars := Aggregate(GroupedRentals);
    assert bars[0] in bars && bars[1] in bars;
    AudioThenTent(bars);
  }

  /** Two bars of different categories, Tent at 1500 and Audio at 2000, sorted descending. */
  lemma AudioThenTent(bars: seq<Bar>)
    requires |bars| == 2 && bars[0].category != bars[1].category && bars[0].income >= bars[1].income
    requires forall k :: 0 <= k < 2 ==>
               && (bars[k].category == Tent || bars[k].category == "Audio")
               && bars[k].income == if bars[k].category == Tent then 1500.0 else 2000.0
    ensures bars == [Bar("Audio", 2000.0), Bar(Tent, 1500.0)]
  {
  }
}
