/** The sidebar filter: a date interval, a rental-count interval and a season
    selector, where the selector 0 stands for "all seasons". All intervals
    include both ends. */
module Filtering {
  import opened Records

  /** The user's current filter selection, as plain values. */
  datatype Selection = Selection(startDate: int, endDate: int, minRentals: int, maxRentals: int, season: int)

  /** The selector value that switches the season condition off. */
  const AllSeasons: int := 0

  /** Inclusive interval membership, as a dataframe's `between` tests it. */
  predicate Between(x: int, lo: int, hi: int)
  {
    lo <= x <= hi
  }

  /** The date and count conditions of the first mask. */
  predicate InWindow(r: Record, q: Selection)
  {
    Between(r.date, q.startDate, q.endDate) && Between(r.cnt, q.minRentals, q.maxRentals)
  }

  /** The season condition, with the sentinel admitting every season. */
  predicate SeasonAdmits(r: Record, q: Selection)
  {
    q.season == AllSeasons || r.season == q.season
  }

  /** The conjunction of all three conditions. */
  predicate Matches(r: Record, q: Selection)
  {
    InWindow(r, q) && SeasonAdmits(r, q)
  }

  /** First step: keep the rows inside the date and count intervals, in order. */
  function WindowFilter(rows: seq<Record>, q: Selection): (out: seq<Record>)
    ensures |out| <= |rows|
    ensures forall r :: r in out ==> r in rows && InWindow(r, q)
  {
    if rows == [] then []
    else if InWindow(rows[0], q) then [rows[0]] + WindowFilter(rows[1..], q)
    else WindowFilter(rows[1..], q)
  }

  /** Second step: keep the rows of one season, in order. */
  function SeasonFilter(rows: seq<Record>, season: int): (out: seq<Record>)
    ensures |out| <= |rows|
    ensures forall r :: r in out ==> r in rows && r.season == season
  {
    if rows == [] then []
    else if rows[0].season == season then [rows[0]] + SeasonFilter(rows[1..], season)
    else SeasonFilter(rows[1..], season)
  }

  /** The filtered table: the window mask, then the season mask unless the
      selector is the sentinel. */
  function Filter(rows: seq<Record>, q: Selection): (out: seq<Record>)
    ensures |out| <= |rows|
    ensures forall r :: r in out ==> r in rows && Matches(r, q)
  {
    var windowed := WindowFilter(rows, q);
    if q.season != AllSeasons then SeasonFilter(windowed, q.season) else windowed
  }

  /** Reference: one boolean mask holding the conjunction of the three
      conditions, applied in a single pass. */
  function Mask(rows: seq<Record>, q: Selection): seq<Record>
  {
    if rows == [] then []
    else if Matches(rows[0], q) then [rows[0]] + Mask(rows[1..], q)
    else Mask(rows[1..], q)
  }

  lemma {:induction false} WindowFilterIsMask(rows: seq<Record>, q: Selection)
    requires q.season == AllSeasons
    ensures WindowFilter(rows, q) == Mask(rows, q)
  {
    if rows != [] {
      WindowFilterIsMask(rows[1..], q);
    }
  }

  lemma {:induction false} SeasonAfterWindowIsMask(rows: seq<Record>, q: Selection)
    requires q.season != AllSeasons
    ensures SeasonFilter(WindowFilter(rows, q), q.season) == Mask(rows, q)
  {
    if rows != [] {
      SeasonAfterWindowIsMask(rows[1..], q);
      if InWindow(rows[0], q) {
        assert WindowFilter(rows, q) == [rows[0]] + WindowFilter(rows[1..], q);
        assert ([rows[0]] + WindowFilter(rows[1..], q))[1..] == WindowFilter(rows[1..], q);
      }
    }
  }

  /** The two-step filter is the single conjunction mask. */
  lemma {:induction false} FilterIsMask(rows: seq<Record>, q: Selection)
    ensures Filter(rows, q) == Mask(rows, q)
  {
    if q.season == AllSeasons {
      WindowFilterIsMask(rows, q);
    } else {
      SeasonAfterWindowIsMask(rows, q);
    }
  }

  lemma {:induction false} MaskMultiplicity(rows: seq<Record>, q: Selection)
    ensures forall x :: multiset(Mask(rows, q))[x] == if Matches(x, q) then multiset(rows)[x] else 0
  {
    if rows != [] {
      MaskMultiplicity(rows[1..], q);
      assert rows == [rows[0]] + rows[1..];
      assert multiset(rows) == multiset{rows[0]} + multiset(rows[1..]);
    }
  }

  /** Nothing is lost and nothing is duplicated: a row that meets the three
      conditions occurs in the result as often as in the table, any other row
      not at all. */
  lemma {:induction false} FilterMultiplicity(rows: seq<Record>, q: Selection)
    ensures forall x :: multiset(Filter(rows, q))[x] == if Matches(x, q) then multiset(rows)[x] else 0
  {
    FilterIsMask(rows, q);
    MaskMultiplicity(rows, q);
  }

  /** Every row of the result lies in both inclusive intervals and, unless the
      selector is the sentinel, has the selected season. */
  lemma {:induction false} FilterSound(rows: seq<Record>, q: Selection)
    ensures forall r :: r in Filter(rows, q) ==>
      && r in rows
      && q.startDate <= r.date <= q.endDate
      && q.minRentals <= r.cnt <= q.maxRentals
      && (q.season != AllSeasons ==> r.season == q.season)
  {
    FilterMultiplicity(rows, q);
    forall r | r in Filter(rows, q) ensures r in rows && Matches(r, q) {
      assert multiset(Filter(rows, q))[r] > 0;
    }
  }

  /** Every row of the table that meets the three conditions is in the result. */
  lemma {:induction false} FilterComplete(rows: seq<Record>, q: Selection)
    ensures forall r ::
      (&& r in rows
       && q.startDate <= r.date <= q.endDate
       && q.minRentals <= r.cnt <= q.maxRentals
       && (q.season == AllSeasons || r.season == q.season))
      ==> r in Filter(rows, q)
  {
    FilterMultiplicity(rows, q);
    forall r | r in rows && Matches(r, q) ensures r in Filter(rows, q) {
      assert multiset(rows)[r] > 0;
    }
  }

  /** With the sentinel the season plays no part: the result holds exactly the
      rows inside the two intervals, whatever their season. */
  lemma {:induction false} SentinelIgnoresSeason(rows: seq<Record>, q: Selection)
    requires q.season == AllSeasons
    ensures forall x :: multiset(Filter(rows, q))[x] == if InWindow(x, q) then multiset(rows)[x] else 0
  {
    FilterMultiplicity(rows, q);
  }

  /** `idx` lists, in increasing order, positions of `rows` whose rows make up `out`. */
  ghost predicate Embeds(out: seq<Record>, rows: seq<Record>, idx: seq<int>)
  {
    && |idx| == |out|
    && (forall k :: 0 <= k < |idx| ==> 0 <= idx[k] < |rows| && out[k] == rows[idx[k]])
    && (forall k, l :: 0 <= k < l < |idx| ==> idx[k] < idx[l])
  }

  /** Shifting the positions of a tail by one gives positions in the whole. */
  lemma {:induction false} Shifted(rows: seq<Record>, out: seq<Record>, tail: seq<int>) returns (idx: seq<int>)
    requires rows != []
    requires Embeds(out, rows[1..], tail)
    ensures Embeds(out, rows, idx)
    ensures forall k :: 0 <= k < |idx| ==> 1 <= idx[k]
    ensures forall j :: 1 <= j < |rows| ==> (j in idx <==> j - 1 in tail)
  {
    idx := seq(|tail|, k requires 0 <= k < |tail| => tail[k] + 1);
    forall j | 1 <= j < |rows| && j - 1 in tail ensures j in idx {
      var k :| 0 <= k < |tail| && tail[k] == j - 1;
      assert idx[k] == j;
    }
  }

  /** Putting the first row in front of an embedding that avoids position 0. */
  lemma {:induction false} ConsPosition(rows: seq<Record>, out: seq<Record>, idx: seq<int>)
    requires rows != []
    requires Embeds(out, rows, idx)
    requires forall k :: 0 <= k < |idx| ==> 1 <= idx[k]
    ensures Embeds([rows[0]] + out, rows, [0] + idx)
  {
    var out', idx' := [rows[0]] + out, [0] + idx;
    assert forall k :: 1 <= k < |idx'| ==> idx'[k] == idx[k - 1] && out'[k] == out[k - 1];
  }

  lemma {:induction false} MaskPositions(rows: seq<Record>, q: Selection) returns (idx: seq<int>)
    ensures Embeds(Mask(rows, q), rows, idx)
    ensures forall j :: 0 <= j < |rows| ==> (j in idx <==> Matches(rows[j], q))
  {
    if rows == [] {
      idx := [];
    } else {
      var tail := MaskPositions(rows[1..], q);
      var shifted := Shifted(rows, Mask(rows[1..], q), tail);
      assert forall j :: 1 <= j < |rows| ==> rows[j] == rows[1..][j - 1];
      assert 0 !in shifted;
      if Matches(rows[0], q) {
        ConsPosition(rows, Mask(rows[1..], q), shifted);
        idx := [0] + shifted;
        assert forall j :: j in idx <==> j == 0 || j in shifted;
      } else {
        idx := shifted;
      }
    }
  }

  /** Order is preserved and rows are not altered: the result is the table's
      rows at an increasing list of positions, and those positions are
      exactly the ones whose rows meet the three conditions. */
  lemma {:induction false} FilterPositions(rows: seq<Record>, q: Selection) returns (idx: seq<int>)
    ensures Embeds(Filter(rows, q), rows, idx)
    ensures forall j :: 0 <= j < |rows| ==> (j in idx <==> Matches(rows[j], q))
  {
    FilterIsMask(rows, q);
    idx := MaskPositions(rows, q);
  }

  lemma {:induction false} MaskIdempotent(rows: seq<Record>, q: Selection)
    ensures Mask(Mask(rows, q), q) == Mask(rows, q)
  {
    if rows != [] {
      MaskIdempotent(rows[1..], q);
      if Matches(rows[0], q) {
        assert ([rows[0]] + Mask(rows[1..], q))[1..] == Mask(rows[1..], q);
      }
    }
  }

  /** Filtering the filtered table again with the same selection changes nothing. */
  lemma {:induction false} FilterIdempotent(rows: seq<Record>, q: Selection)
    ensures Filter(Filter(rows, q), q) == Filter(rows, q)
  {
    FilterIsMask(rows, q);
    FilterIsMask(Mask(rows, q), q);
    MaskIdempotent(rows, q);
  }
}
