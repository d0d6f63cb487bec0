/** One render of the dashboard as a function of the loaded table and the
    current selection: derive the weekend column, filter, then aggregate. */
module Pipeline {
  import opened Records
  import opened Filtering
  import opened Grouping

  /** The three aggregate tables the page shows. */
  datatype Statistics = Statistics(
    seasonAvg: map<int, real>,
    weekendAvg: map<int, real>,
    seasonWeekendAvg: map<(int, int), real>)

  /** The aggregates of a filtered table: the three tables are empty exactly
      when no row is selected, and every (season, indicator) cell shown
      belongs to a season and an indicator shown in the two one-key tables. */
  function Summarize(filtered: seq<Record>): (st: Statistics)
    ensures filtered == [] <==> st.seasonAvg == map[]
    ensures filtered == [] <==> st.weekendAvg == map[]
    ensures filtered == [] <==> st.seasonWeekendAvg == map[]
    ensures forall s, f :: (s, f) in st.seasonWeekendAvg ==> s in st.seasonAvg && f in st.weekendAvg
  {
    var st := Statistics(SeasonAverage(filtered), WeekendAverage(filtered), SeasonWeekendAverage(filtered));
    assert filtered != [] ==> filtered[0] in filtered;
    assert filtered != [] ==>
      filtered[0].season in st.seasonAvg && filtered[0].isWeekend in st.weekendAvg &&
      (filtered[0].season, filtered[0].isWeekend) in st.seasonWeekendAvg;
    st
  }

  /** The filtered table of one render: rows of the derived table that meet
      the selection, each with its weekend column derived from its weekday. */
  function Filtered(loaded: seq<Record>, q: Selection): (f: seq<Record>)
    ensures forall r :: r in f ==> Derived(r) && Matches(r, q)
  {
    WithWeekendDerived(loaded);
    Filter(WithWeekend(loaded), q)
  }

  /** Every row of a render's filtered table has a weekend indicator of 0 or 1. */
  lemma {:induction false} FilteredFlags(loaded: seq<Record>, q: Selection)
    ensures forall r :: r in Filtered(loaded, q) ==> r.isWeekend == 0 || r.isWeekend == 1
  {
    forall r | r in Filtered(loaded, q) ensures r.isWeekend == 0 || r.isWeekend == 1 {
      assert Derived(r);
    }
  }

  /** The weekend table of a render has no key other than 0 and 1, and has
      the key 1 exactly when some selected row falls on weekday 0 or 6. */
  lemma {:induction false} WeekendKeysAreFlags(loaded: seq<Record>, q: Selection)
    ensures WeekendAverage(Filtered(loaded, q)).Keys <= {0, 1}
    ensures 1 in WeekendAverage(Filtered(loaded, q)) <==>
      exists r :: r in Filtered(loaded, q) && (r.weekday == 0 || r.weekday == 6)
    ensures 0 in WeekendAverage(Filtered(loaded, q)) <==>
      exists r :: r in Filtered(loaded, q) && r.weekday != 0 && r.weekday != 6
  {
  }

  /** Every mean shown lies in the selected rental-count interval, since it
      averages rows that all lie there. */
  lemma {:induction false} AveragesWithinSelection(loaded: seq<Record>, q: Selection)
    ensures forall s :: s in SeasonAverage(Filtered(loaded, q)) ==>
      q.minRentals as real <= SeasonAverage(Filtered(loaded, q))[s] <= q.maxRentals as real
    ensures forall f :: f in WeekendAverage(Filtered(loaded, q)) ==>
      q.minRentals as real <= WeekendAverage(Filtered(loaded, q))[f] <= q.maxRentals as real
    ensures forall c :: c in SeasonWeekendAverage(Filtered(loaded, q)) ==>
      q.minRentals as real <= SeasonWeekendAverage(Filtered(loaded, q))[c] <= q.maxRentals as real
  {
    var rows := Filtered(loaded, q);
    forall s | s in SeasonAverage(rows) ensures q.minRentals as real <= SeasonAverage(rows)[s] <= q.maxRentals as real {
      MeanBounds(rows, SeasonKey, s, q.minRentals, q.maxRentals);
    }
    forall f | f in WeekendAverage(rows) ensures q.minRentals as real <= WeekendAverage(rows)[f] <= q.maxRentals as real {
      MeanBounds(rows, WeekendKey, f, q.minRentals, q.maxRentals);
    }
    forall c | c in SeasonWeekendAverage(rows)
      ensures q.minRentals as real <= SeasonWeekendAverage(rows)[c] <= q.maxRentals as real
    {
      MeanBounds(rows, SeasonWeekendKey, c, q.minRentals, q.maxRentals);
    }
  }

  /** The season table and the split table of a render agree on presence:
      a season has a mean exactly when one of its two cells has one. */
  lemma {:induction false} SeasonTableMatchesCells(loaded: seq<Record>, q: Selection, s: int)
    ensures s in SeasonAverage(Filtered(loaded, q)) <==>
      (s, 0) in SeasonWeekendAverage(Filtered(loaded, q)) || (s, 1) in SeasonWeekendAverage(Filtered(loaded, q))
  {
    FilteredFlags(loaded, q);
    SeasonPresentIffCell(Filtered(loaded, q), s);
  }

  /** A season's mean in a render pools the rows of its two cells of the
      split table. */
  lemma {:induction false} SeasonMeanMatchesCells(loaded: seq<Record>, q: Selection, s: int)
    ensures s in SeasonAverage(Filtered(loaded, q)) ==>
      |Group(Filtered(loaded, q), SeasonWeekendKey, (s, 0))| + |Group(Filtered(loaded, q), SeasonWeekendKey, (s, 1))| > 0
    ensures s in SeasonAverage(Filtered(loaded, q)) ==>
      SeasonAverage(Filtered(loaded, q))[s] ==
        (SumCnt(Group(Filtered(loaded, q), SeasonWeekendKey, (s, 0))) + SumCnt(Group(Filtered(loaded, q), SeasonWeekendKey, (s, 1)))) as real /
        (|Group(Filtered(loaded, q), SeasonWeekendKey, (s, 0))| + |Group(Filtered(loaded, q), SeasonWeekendKey, (s, 1))|) as real
  {
    if s in SeasonAverage(Filtered(loaded, q)) {
      FilteredFlags(loaded, q);
      SeasonMeanPoolsCells(Filtered(loaded, q), s);
    }
  }
}
