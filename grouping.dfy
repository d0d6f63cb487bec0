/** Group-by means of the rental count over the filtered table: per season,
    per weekend indicator and per (season, indicator) pair. Means are exact
    rationals; a group exists only for a key that occurs in the rows. */
module Grouping {
  import opened Records

  /** What a group accumulates: the total of `cnt` and the number of rows. */
  datatype Acc = Acc(sum: nat, count: nat)

  /** Account for one more row of key `k` with count `cnt`. */
  function Add<K>(g: map<K, Acc>, k: K, cnt: nat): (m: map<K, Acc>)
  {
    if k in g then g[k := Acc(g[k].sum + cnt, g[k].count + 1)] else g[k := Acc(cnt, 1)]
  }

  /** One pass over the rows, left to right, accumulating per key. */
  function GroupBy<K>(rows: seq<Record>, key: Record -> K): (m: map<K, Acc>)
    decreases |rows|
  {
    if rows == [] then map[]
    else Add(GroupBy(rows[..|rows| - 1], key), key(rows[|rows| - 1]), rows[|rows| - 1].cnt)
  }

  /** Reference: the rows whose key is `k`, in table order. */
  function Group<K(==)>(rows: seq<Record>, key: Record -> K, k: K): seq<Record>
    decreases |rows|
  {
    if rows == [] then []
    else Group(rows[..|rows| - 1], key, k) + (if key(rows[|rows| - 1]) == k then [rows[|rows| - 1]] else [])
  }

  /** Reference: the total rental count of some rows. */
  function SumCnt(rows: seq<Record>): nat
    decreases |rows|
  {
    if rows == [] then 0 else SumCnt(rows[..|rows| - 1]) + rows[|rows| - 1].cnt
  }

  /** Reference: the keys that occur in the rows. */
  ghost function KeysOf<K>(rows: seq<Record>, key: Record -> K): set<K>
  {
    set r | r in rows :: key(r)
  }

  /** The keys of a table extended by one row. */
  lemma {:induction false} KeysOfSnoc<K>(init: seq<Record>, last: Record, key: Record -> K)
    ensures KeysOf(init + [last], key) == KeysOf(init, key) + {key(last)}
  {
    var rows := init + [last];
    forall r | r in rows ensures r in init || r == last { }
    forall r | r in init ensures r in rows { }
    assert last in rows;
  }

  /** The group of `k` in a table extended by one row. */
  lemma {:induction false} GroupSnoc<K>(init: seq<Record>, last: Record, key: Record -> K, k: K)
    ensures Group(init + [last], key, k) == Group(init, key, k) + (if key(last) == k then [last] else [])
    ensures SumCnt(Group(init + [last], key, k)) == SumCnt(Group(init, key, k)) + (if key(last) == k then last.cnt else 0)
  {
    var rows := init + [last];
    assert rows[..|rows| - 1] == init;
    var g := Group(init, key, k);
    if key(last) == k {
      assert (g + [last])[..|g|] == g;
    } else {
      assert g + [] == g;
    }
  }

  /** One more row keeps the fold in step with the reference, key by key. */
  lemma {:induction false} GroupByStep<K>(init: seq<Record>, last: Record, key: Record -> K, k: K)
    requires GroupBy(init, key).Keys == KeysOf(init, key)
    requires forall k :: k in GroupBy(init, key) ==>
      GroupBy(init, key)[k] == Acc(SumCnt(Group(init, key, k)), |Group(init, key, k)|) && |Group(init, key, k)| > 0
    requires k in Add(GroupBy(init, key), key(last), last.cnt)
    ensures var g := Group(init + [last], key, k);
      Add(GroupBy(init, key), key(last), last.cnt)[k] == Acc(SumCnt(g), |g|) && |g| > 0
  {
    var before, after := GroupBy(init, key), Add(GroupBy(init, key), key(last), last.cnt);
    var g, g' := Group(init, key, k), Group(init + [last], key, k);
    GroupSnoc(init, last, key, k);
    if key(last) != k {
      assert after[k] == before[k];
      assert g' == g;
    } else if k in before {
      assert after[k] == Acc(before[k].sum + last.cnt, before[k].count + 1);
      assert g' == g + [last];
    } else {
      assert after[k] == Acc(last.cnt, 1);
      assert forall r :: r in init ==> key(r) != k;
      GroupEmpty(init, key, k);
      assert g' == [last];
    }
  }

  lemma {:induction false} GroupByCorrect<K>(rows: seq<Record>, key: Record -> K)
    ensures GroupBy(rows, key).Keys == KeysOf(rows, key)
    ensures forall k :: k in GroupBy(rows, key) ==>
      GroupBy(rows, key)[k] == Acc(SumCnt(Group(rows, key, k)), |Group(rows, key, k)|)
    ensures forall k :: k in GroupBy(rows, key) ==> |Group(rows, key, k)| > 0
    decreases |rows|
  {
    if rows != [] {
      var init, last := rows[..|rows| - 1], rows[|rows| - 1];
      GroupByCorrect(init, key);
      assert rows == init + [last];
      KeysOfSnoc(init, last, key);
      assert GroupBy(rows, key) == Add(GroupBy(init, key), key(last), last.cnt);
      forall k | k in GroupBy(rows, key)
        ensures GroupBy(rows, key)[k] == Acc(SumCnt(Group(rows, key, k)), |Group(rows, key, k)|)
        ensures |Group(rows, key, k)| > 0
      {
        GroupByStep(init, last, key, k);
      }
    }
  }

  /** A key that occurs in no row has an empty group. */
  lemma {:induction false} GroupEmpty<K>(rows: seq<Record>, key: Record -> K, k: K)
    requires forall r :: r in rows ==> key(r) != k
    ensures Group(rows, key, k) == []
    decreases |rows|
  {
    if rows != [] {
      assert rows[|rows| - 1] in rows;
      GroupEmpty(rows[..|rows| - 1], key, k);
    }
  }

  /** The mean of a non-empty group. */
  function Mean(a: Acc): (mean: real)
    requires a.count > 0
    ensures mean * a.count as real == a.sum as real
    ensures 0.0 <= mean
  {
    a.sum as real / a.count as real
  }

  /** Group-by-mean: one entry per key that occurs in the rows, holding the
      total count of that key's rows divided by their number. */
  function GroupMean<K(==)>(rows: seq<Record>, key: Record -> K): (m: map<K, real>)
    ensures m.Keys == KeysOf(rows, key)
    ensures forall k :: k in m ==>
      |Group(rows, key, k)| > 0 && m[k] == SumCnt(Group(rows, key, k)) as real / |Group(rows, key, k)| as real
  {
    GroupByCorrect(rows, key);
    var g := GroupBy(rows, key);
    map k | k in g :: Mean(g[k])
  }

  function SeasonKey(r: Record): int { r.season }
  function WeekendKey(r: Record): int { r.isWeekend }
  function SeasonWeekendKey(r: Record): (int, int) { (r.season, r.isWeekend) }

  /** Mean rentals per season: an entry for exactly the seasons that occur
      in the rows, each the mean count of that season's rows; no rows give
      no entries. */
  function SeasonAverage(rows: seq<Record>): (m: map<int, real>)
    ensures forall s :: s in m <==> exists r :: r in rows && r.season == s
    ensures forall s :: s in m ==>
      |Group(rows, SeasonKey, s)| > 0 &&
      m[s] == SumCnt(Group(rows, SeasonKey, s)) as real / |Group(rows, SeasonKey, s)| as real
    ensures rows == [] ==> m == map[]
  {
    GroupMean(rows, SeasonKey)
  }

  /** Mean rentals per weekend indicator: an entry for exactly the indicator
      values that occur in the rows, each the mean count of those rows. */
  function WeekendAverage(rows: seq<Record>): (m: map<int, real>)
    ensures forall f :: f in m <==> exists r :: r in rows && r.isWeekend == f
    ensures forall f :: f in m ==>
      |Group(rows, WeekendKey, f)| > 0 &&
      m[f] == SumCnt(Group(rows, WeekendKey, f)) as real / |Group(rows, WeekendKey, f)| as real
    ensures rows == [] ==> m == map[]
    ensures (forall r :: r in rows ==> Derived(r)) ==> m.Keys <= {0, 1}
  {
    var m := GroupMean(rows, WeekendKey);
    assert forall f :: f in m ==> exists r :: r in rows && r.isWeekend == f;
    m
  }

  /** Mean rentals per (season, weekend indicator) cell: a cell is present
      exactly when some row has both values, and then holds the mean count
      of the rows having both. */
  function SeasonWeekendAverage(rows: seq<Record>): (m: map<(int, int), real>)
    ensures forall s, f :: (s, f) in m <==> exists r :: r in rows && r.season == s && r.isWeekend == f
    ensures forall c :: c in m ==>
      |Group(rows, SeasonWeekendKey, c)| > 0 &&
      m[c] == SumCnt(Group(rows, SeasonWeekendKey, c)) as real / |Group(rows, SeasonWeekendKey, c)| as real
    ensures rows == [] ==> m == map[]
  {
    var m := GroupMean(rows, SeasonWeekendKey);
    assert forall s, f :: (s, f) in m ==> exists r :: r in rows && r.season == s && r.isWeekend == f;
    m
  }

  /** The rows of a group are exactly the rows of the table with that key. */
  lemma {:induction false} GroupMembers<K>(rows: seq<Record>, key: Record -> K, k: K)
    ensures forall r :: r in Group(rows, key, k) <==> r in rows && key(r) == k
    decreases |rows|
  {
    if rows != [] {
      var init, last := rows[..|rows| - 1], rows[|rows| - 1];
      GroupMembers(init, key, k);
      assert rows == init + [last];
      GroupSnoc(init, last, key, k);
      forall r | r in rows ensures r in init || r == last { }
    }
  }

  /** Rows whose counts lie in `[lo, hi]` have a total between `n * lo` and `n * hi`. */
  lemma {:induction false} SumCntBounds(rows: seq<Record>, lo: int, hi: int)
    requires forall r :: r in rows ==> lo <= r.cnt <= hi
    ensures |rows| * lo <= SumCnt(rows) <= |rows| * hi
    decreases |rows|
  {
    if rows != [] {
      var init, last := rows[..|rows| - 1], rows[|rows| - 1];
      assert forall r :: r in init ==> r in rows;
      assert last in rows;
      SumCntBounds(init, lo, hi);
      MulSucc(|init|, lo);
      MulSucc(|init|, hi);
    }
  }

  lemma MulSucc(n: int, x: int)
    ensures (n + 1) * x == n * x + x
  {
  }

  /** Dividing a total between `n * lo` and `n * hi` by `n` lands in `[lo, hi]`. */
  lemma DivBounds(t: int, n: int, lo: int, hi: int)
    requires n > 0 && n * lo <= t <= n * hi
    ensures lo as real <= t as real / n as real <= hi as real
  {
    var q := t as real / n as real;
    assert q * n as real == t as real;
    assert (n * lo) as real == n as real * lo as real;
    assert (n * hi) as real == n as real * hi as real;
  }

  /** The mean of a non-empty group whose counts lie in `[lo, hi]` lies in `[lo, hi]`. */
  lemma {:induction false} MeanBounds<K>(rows: seq<Record>, key: Record -> K, k: K, lo: int, hi: int)
    requires forall r :: r in rows ==> lo <= r.cnt <= hi
    requires |Group(rows, key, k)| > 0
    ensures lo as real <= SumCnt(Group(rows, key, k)) as real / |Group(rows, key, k)| as real <= hi as real
  {
    var g := Group(rows, key, k);
    GroupMembers(rows, key, k);
    SumCntBounds(g, lo, hi);
    DivBounds(SumCnt(g), |g|, lo, hi);
  }

  /** With weekend indicators in {0, 1}, a season's rows split into its
      weekday cell and its weekend cell, in number and in total count. */
  lemma {:induction false} SeasonSplitsByFlag(rows: seq<Record>, s: int)
    requires forall r :: r in rows ==> r.isWeekend == 0 || r.isWeekend == 1
    ensures |Group(rows, SeasonKey, s)| ==
      |Group(rows, SeasonWeekendKey, (s, 0))| + |Group(rows, SeasonWeekendKey, (s, 1))|
    ensures SumCnt(Group(rows, SeasonKey, s)) ==
      SumCnt(Group(rows, SeasonWeekendKey, (s, 0))) + SumCnt(Group(rows, SeasonWeekendKey, (s, 1)))
    decreases |rows|
  {
    if rows != [] {
      var init, last := rows[..|rows| - 1], rows[|rows| - 1];
      assert forall r :: r in init ==> r in rows;
      assert last in rows;
      SeasonSplitsByFlag(init, s);
      assert rows == init + [last];
      GroupSnoc(init, last, SeasonKey, s);
      GroupSnoc(init, last, SeasonWeekendKey, (s, 0));
      GroupSnoc(init, last, SeasonWeekendKey, (s, 1));
    }
  }

  /** A key has a mean exactly when its group is non-empty; a key without
      a mean has a group of total 0. */
  lemma {:induction false} GroupPresence<K>(rows: seq<Record>, key: Record -> K, k: K)
    ensures k in GroupMean(rows, key) <==> |Group(rows, key, k)| > 0
    ensures k !in GroupMean(rows, key) ==> SumCnt(Group(rows, key, k)) == 0
  {
    var g := Group(rows, key, k);
    GroupMembers(rows, key, k);
    if |g| > 0 {
      assert g[0] in rows && key(g[0]) == k;
      assert k in KeysOf(rows, key);
    } else {
      assert g == [];
      assert k !in KeysOf(rows, key);
    }
  }

  /** With weekend indicators in {0, 1}, a season has a mean exactly when
      one of its two cells has one. */
  lemma {:induction false} SeasonPresentIffCell(rows: seq<Record>, s: int)
    requires forall r :: r in rows ==> r.isWeekend == 0 || r.isWeekend == 1
    ensures s in SeasonAverage(rows) <==> (s, 0) in SeasonWeekendAverage(rows) || (s, 1) in SeasonWeekendAverage(rows)
  {
    SeasonSplitsByFlag(rows, s);
    GroupPresence(rows, SeasonKey, s);
    GroupPresence(rows, SeasonWeekendKey, (s, 0));
    GroupPresence(rows, SeasonWeekendKey, (s, 1));
  }

  /** With weekend indicators in {0, 1}, a season's mean pools the rows of
      its weekday cell and its weekend cell. */
  lemma {:induction false} SeasonMeanPoolsCells(rows: seq<Record>, s: int)
    requires forall r :: r in rows ==> r.isWeekend == 0 || r.isWeekend == 1
    requires s in SeasonAverage(rows)
    ensures |Group(rows, SeasonWeekendKey, (s, 0))| + |Group(rows, SeasonWeekendKey, (s, 1))| == |Group(rows, SeasonKey, s)| > 0
    ensures SeasonAverage(rows)[s] ==
      (SumCnt(Group(rows, SeasonWeekendKey, (s, 0))) + SumCnt(Group(rows, SeasonWeekendKey, (s, 1)))) as real /
      (|Group(rows, SeasonWeekendKey, (s, 0))| + |Group(rows, SeasonWeekendKey, (s, 1))|) as real
  {
    var g, g0, g1 := Group(rows, SeasonKey, s), Group(rows, SeasonWeekendKey, (s, 0)), Group(rows, SeasonWeekendKey, (s, 1));
    SeasonSplitsByFlag(rows, s);
    assert SeasonAverage(rows)[s] == SumCnt(g) as real / |g| as real;
    SameQuotient(SumCnt(g), |g|, SumCnt(g0) + SumCnt(g1), |g0| + |g1|);
  }

  /** Rewriting a quotient by equal operands; stated on its own because the
      solver does not find this substitution under real division cheaply. */
  lemma SameQuotient(a: int, b: int, c: int, d: int)
    requires a == c && b == d && b != 0
    ensures a as real / b as real == c as real / d as real
  {
  }
}
