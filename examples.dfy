/** Two worked two-day examples: two days of season 1, one with weekday
    index 3 and 500 rentals, the other with weekday index 6 and 800. */
module Examples {
  import opened Records
  import opened Filtering
  import opened Grouping
  import opened Pipeline

  /** 2025-01-01 and 2025-01-02 as day numbers since 1970-01-01; the weekend
      column as loaded is a placeholder 0. */
  const Loaded: seq<Record> := [Record(20089, 1, 3, 500, 0), Record(20090, 1, 6, 800, 0)]

  /** The loaded table after preprocessing. */
  const Day: seq<Record> := [Record(20089, 1, 3, 500, 0), Record(20090, 1, 6, 800, 1)]

  lemma DayIsDerived()
    ensures WithWeekend(Loaded) == Day
  {
  }

  lemma BothDaysSelected()
    ensures Filtered(Loaded, Selection(20089, 20090, 0, 1000, AllSeasons)) == Day
    ensures Summarize(Filtered(Loaded, Selection(20089, 20090, 0, 1000, AllSeasons))) ==
      Statistics(map[1 := 650.0], map[0 := 500.0, 1 := 800.0], map[(1, 0) := 500.0, (1, 1) := 800.0])
  {
    DayIsDerived();
    var q := Selection(20089, 20090, 0, 1000, AllSeasons);
    assert Filter(Day, q) == Day;
    SeasonsOfDay();
    WeekendsOfDay();
    CellsOfDay();
  }

  /** The group of a key in a two-row table, unfolded. */
  lemma GroupOfTwo<K>(a: Record, b: Record, key: Record -> K, k: K)
    ensures Group([a, b], key, k) == (if key(a) == k then [a] else []) + (if key(b) == k then [b] else [])
  {
    assert [a, b][..1] == [a];
    assert [a][..0] == [];
    assert Group([a], key, k) == (if key(a) == k then [a] else []) by {
      assert Group([a][..0], key, k) == [];
    }
  }

  /** The total count of at most two rows. */
  lemma SumCntSmall(a: Record, b: Record)
    ensures SumCnt([]) == 0 && SumCnt([a]) == a.cnt && SumCnt([a, b]) == a.cnt + b.cnt
  {
    assert [a, b][..1] == [a];
    assert [a][..0] == [];
  }

  lemma SeasonsOfDay()
    ensures SeasonAverage(Day) == map[1 := 650.0]
  {
    SeasonKeysOfDay();
    var g := Group(Day, SeasonKey, 1);
    GroupOfTwo(Day[0], Day[1], SeasonKey, 1);
    SumCntSmall(Day[0], Day[1]);
    assert SumCnt(g) == 1300 && |g| == 2;
    assert SeasonAverage(Day)[1] == 1300.0 / 2.0;
  }

  lemma SeasonKeysOfDay()
    ensures SeasonAverage(Day).Keys == {1}
  {
    var m := SeasonAverage(Day);
    forall s | s in m ensures s == 1 {
      var r :| r in Day && r.season == s;
    }
    assert Day[0] in Day;
  }

  lemma WeekendsOfDay()
    ensures WeekendAverage(Day) == map[0 := 500.0, 1 := 800.0]
  {
    WeekendKeysOfDay();
    WeekendMeanOfDay(0);
    WeekendMeanOfDay(1);
  }

  lemma WeekendKeysOfDay()
    ensures WeekendAverage(Day).Keys == {0, 1}
  {
    var m := WeekendAverage(Day);
    forall f | f in m ensures f == 0 || f == 1 {
      var r :| r in Day && r.isWeekend == f;
    }
    assert Day[0] in Day && Day[1] in Day;
  }

  lemma WeekendMeanOfDay(f: int)
    requires f == 0 || f == 1
    ensures f in WeekendAverage(Day) && WeekendAverage(Day)[f] == Day[f].cnt as real
  {
    GroupOfTwo(Day[0], Day[1], WeekendKey, f);
    assert Group(Day, WeekendKey, f) == [Day[f]];
    SumCntSmall(Day[f], Day[f]);
    assert Day[f] in Day;
  }

  lemma CellsOfDay()
    ensures SeasonWeekendAverage(Day) == map[(1, 0) := 500.0, (1, 1) := 800.0]
  {
    CellKeysOfDay();
    CellMeanOfDay(0);
    CellMeanOfDay(1);
  }

  lemma CellKeysOfDay()
    ensures SeasonWeekendAverage(Day).Keys == {(1, 0), (1, 1)}
  {
    var m := SeasonWeekendAverage(Day);
    forall c | c in m ensures c == (1, 0) || c == (1, 1) {
      assert (c.0, c.1) in m;
      var r :| r in Day && r.season == c.0 && r.isWeekend == c.1;
    }
    assert Day[0] in Day && Day[1] in Day;
  }

  lemma CellMeanOfDay(f: int)
    requires f == 0 || f == 1
    ensures (1, f) in SeasonWeekendAverage(Day) && SeasonWeekendAverage(Day)[(1, f)] == Day[f].cnt as real
  {
    GroupOfTwo(Day[0], Day[1], SeasonWeekendKey, (1, f));
    assert Group(Day, SeasonWeekendKey, (1, f)) == [Day[f]];
    SumCntSmall(Day[f], Day[f]);
    assert Day[f] in Day;
  }

  lemma OnlyWeekendDaySelected()
    ensures Filtered(Loaded, Selection(20089, 20090, 600, 1000, AllSeasons)) == [Record(20090, 1, 6, 800, 1)]
    ensures SeasonAverage(Filtered(Loaded, Selection(20089, 20090, 600, 1000, AllSeasons))) == map[1 := 800.0]
  {
    DayIsDerived();
    var q := Selection(20089, 20090, 600, 1000, AllSeasons);
    assert WindowFilter(Day[1..], q) == [Day[1]] by {
      assert Day[1..][1..] == [];
    }
    assert WindowFilter(Day, q) == [Day[1]];
    SeasonOfOne(Day[1]);
  }

  /** A single row makes a season table of one entry, its own count. */
  lemma SeasonOfOne(r: Record)
    ensures SeasonAverage([r]) == map[r.season := r.cnt as real]
  {
    var m := SeasonAverage([r]);
    forall s | s in m ensures s == r.season {
      var x :| x in [r] && x.season == s;
    }
    assert r in [r];
    assert [r][..0] == [];
    assert Group([r], SeasonKey, r.season) == [r];
    SumCntSmall(r, r);
    assert m[r.season] == r.cnt as real / 1.0;
  }
}
