/** The rental table and its preprocessing step.

    A row of the daily table. `date` is the already-parsed calendar date as a
    day number, `season` is the season code (1..4 in the data), `weekday` the
    weekday index (0..6 in the data) and `cnt` the number of rentals that day.
    `isWeekend` is the derived column: until preprocessing has run it holds
    whatever the loader put there, and preprocessing overwrites it. */
module Records {

  datatype Record = Record(date: int, season: int, weekday: int, cnt: nat, isWeekend: int)

  /** The weekend indicator of one weekday index: 1 for the two weekend days
      0 and 6, 0 for every other value. */
  function WeekendFlag(weekday: int): (flag: int)
    ensures flag == 0 || flag == 1
    ensures flag == 1 <==> weekday == 0 || weekday == 6
  {
    if weekday == 0 || weekday == 6 then 1 else 0
  }

  /** The table with its weekend column derived: every row keeps its other
      columns and gets the indicator of its own weekday. */
  function WithWeekend(day: seq<Record>): (out: seq<Record>)
    ensures |out| == |day|
    ensures forall i :: 0 <= i < |day| ==> out[i] == day[i].(isWeekend := out[i].isWeekend)
    ensures forall i :: 0 <= i < |day| ==> (out[i].isWeekend == 1 <==> day[i].weekday == 0 || day[i].weekday == 6)
    ensures forall i :: 0 <= i < |day| ==> out[i].isWeekend == 0 || out[i].isWeekend == 1
  {
    seq(|day|, i requires 0 <= i < |day| => day[i].(isWeekend := WeekendFlag(day[i].weekday)))
  }

  /** A row whose weekend column agrees with its weekday. */
  predicate Derived(r: Record)
  {
    r.isWeekend == WeekendFlag(r.weekday)
  }

  /** Preprocessing fixes every row's weekend column and nothing else: a
      derived table is left as it is by a second derivation. */
  lemma {:induction false} WithWeekendDerived(day: seq<Record>)
    ensures forall r :: r in WithWeekend(day) ==> Derived(r)
    ensures WithWeekend(WithWeekend(day)) == WithWeekend(day)
  {
    var once := WithWeekend(day);
    forall r | r in once ensures Derived(r) {
      var i :| 0 <= i < |once| && once[i] == r;
      assert r == day[i].(isWeekend := WeekendFlag(day[i].weekday));
    }
    var twice := WithWeekend(once);
    assert |twice| == |once|;
    forall i | 0 <= i < |once| ensures twice[i] == once[i] {
      assert Derived(once[i]);
    }
  }

  /** The in-place column assignment: the array of rows of the loaded table
      gets its weekend column filled row by row. */
  method DeriveWeekend(day: array<Record>)
    modifies day
    ensures day[..] == WithWeekend(old(day[..]))
  {
    for i := 0 to day.Length
      invariant forall k :: 0 <= k < i ==> day[k] == old(day[k]).(isWeekend := WeekendFlag(old(day[k]).weekday))
      invariant forall k :: i <= k < day.Length ==> day[k] == old(day[k])
    {
      day[i] := day[i].(isWeekend := WeekendFlag(day[i].weekday));
    }
    assert day[..] == WithWeekend(old(day[..]));
  }
}
