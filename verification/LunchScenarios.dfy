/** The working days of the original's own scenarios. */
module LunchScenarios {
  import opened LunchBreak
  import opened LunchBreakProperties

  /** A time of day in ticks. */
  function At(hours: int, minutes: int): int { (60 * hours + minutes) * 600_000_000 }

  /** A day of one period: untouched up to six hours, else its second half starts at its middle and its first half ends
      an hour before. */
  lemma OnePeriod(start: int, end: int)
    ensures end - start <= At(6, 0) ==> Lunch([Span(start, end)]) == [Span(start, end)]
    ensures end - start > At(6, 0) && (end - start) % 2 == 0 ==>
      var middle := (start + end) / 2; Lunch([Span(start, end)]) == [Span(start, middle - At(1, 0)), Span(middle, end)]
  {
    var day := [Span(start, end)];
    WorkedOne(day[0]);
    if end - start > At(6, 0) && (end - start) % 2 == 0 {
      TheHourEndsAtTheMiddle(day, 0);
      var after := Lunch(day);
      assert after == [after[0], after[1]];
      assert start + end == end - start + 2 * start;
    }
  }

  lemma OnePeriodDays()
    ensures Lunch([Span(At(8, 0), At(17, 0))]) == [Span(At(8, 0), At(11, 30)), Span(At(12, 30), At(17, 0))]
    ensures Lunch([Span(At(8, 0), At(15, 0))]) == [Span(At(8, 0), At(10, 30)), Span(At(11, 30), At(15, 0))]
    ensures Lunch([Span(At(11, 0), At(20, 0))]) == [Span(At(11, 0), At(14, 30)), Span(At(15, 30), At(20, 0))]
    ensures Lunch([Span(At(12, 0), At(20, 0))]) == [Span(At(12, 0), At(15, 0)), Span(At(16, 0), At(20, 0))]
    ensures Lunch([Span(At(9, 0), At(20, 0))]) == [Span(At(9, 0), At(13, 30)), Span(At(14, 30), At(20, 0))]
    ensures Lunch([Span(At(8, 0), At(12, 0))]) == [Span(At(8, 0), At(12, 0))]
    ensures Lunch([Span(At(12, 0), At(17, 0))]) == [Span(At(12, 0), At(17, 0))]
    ensures Lunch([Span(At(5, 0), At(12, 0))]) == [Span(At(5, 0), At(7, 30)), Span(At(8, 30), At(12, 0))]
  {
    OnePeriod(At(8, 0), At(17, 0));
    OnePeriod(At(8, 0), At(15, 0));
    OnePeriod(At(11, 0), At(20, 0));
    OnePeriod(At(12, 0), At(20, 0));
    OnePeriod(At(9, 0), At(20, 0));
    OnePeriod(At(8, 0), At(12, 0));
    OnePeriod(At(12, 0), At(17, 0));
    OnePeriod(At(5, 0), At(12, 0));
  }

  /** Two boundaries nearest noon in neighbouring periods: the later start waits for an hour after the earlier end. */
  lemma Pushed(day: seq<Span>, m: nat)
    requires m + 1 < |day| && Worked(day) > At(6, 0) && NearestEnd(day) == m && NearestStart(day) == m + 1
    ensures Lunch(day) == if day[m + 1].start - day[m].end < At(1, 0)
                          then day[m + 1 := Span(day[m].end + At(1, 0), day[m + 1].end)] else day
  {
  }

  lemma FourPeriods(day: seq<Span>)
    requires day == [Span(At(8, 14), At(9, 4)), Span(At(9, 7), At(12, 1)), Span(At(12, 23), At(16, 29)), Span(At(17, 9), At(19, 3))]
    ensures Lunch(day)
      == [Span(At(8, 14), At(9, 4)), Span(At(9, 7), At(12, 1)), Span(At(13, 1), At(16, 29)), Span(At(17, 9), At(19, 3))]
  {
    WorkedAtLeast(day, 2);
    NearestNoon(day, 2, 1);
    Pushed(day, 1);
  }

  lemma ThreePeriods(day: seq<Span>)
    requires day == [Span(At(8, 9), At(9, 14)), Span(At(9, 16), At(12, 18)), Span(At(12, 58), At(18, 39))]
    ensures Lunch(day) == [Span(At(8, 9), At(9, 14)), Span(At(9, 16), At(12, 18)), Span(At(13, 18), At(18, 39))]
  {
    WorkedAtLeast(day, 2);
    NearestNoon(day, 2, 1);
    Pushed(day, 1);
  }

  lemma LongBreakAlready(day: seq<Span>)
    requires day == [Span(At(8, 6), At(12, 28)), Span(At(13, 46), At(17, 20))]
    ensures Lunch(day) == day
  {
    WorkedAtLeast(day, 1);
    NearestNoon(day, 1, 0);
    Pushed(day, 0);
  }

  lemma ShortBreak(day: seq<Span>)
    requires day == [Span(At(8, 0), At(9, 0)), Span(At(9, 15), At(13, 0)), Span(At(13, 20), At(18, 0))]
    ensures Lunch(day) == [Span(At(8, 0), At(9, 0)), Span(At(9, 15), At(13, 0)), Span(At(14, 0), At(18, 0))]
  {
    WorkedAtLeast(day, 2);
    NearestNoon(day, 2, 1);
    Pushed(day, 1);
  }

  /** Two neighbouring periods of such a day alone are more than six hours. */
  lemma WorkedAtLeast(day: seq<Span>, k: nat)
    requires 0 < k < |day| && forall i :: 0 <= i < |day| ==> day[i].start <= day[i].end
    ensures Worked(day) >= day[k - 1].end - day[k - 1].start + day[k].end - day[k].start
  {
    assert day == day[..k - 1] + [day[k - 1]] + [day[k]] + day[k + 1..];
    WorkedConcat(day[..k - 1] + [day[k - 1]] + [day[k]], day[k + 1..]);
    WorkedConcat(day[..k - 1] + [day[k - 1]], [day[k]]);
    WorkedConcat(day[..k - 1], [day[k - 1]]);
    WorkedOne(day[k - 1]);
    WorkedOne(day[k]);
    NotNegative(day[..k - 1]);
    NotNegative(day[k + 1..]);
  }

  lemma {:induction false} NotNegative(day: seq<Span>)
    requires forall i :: 0 <= i < |day| ==> day[i].start <= day[i].end
    ensures Worked(day) >= 0
  {
    if day != [] { NotNegative(day[..|day| - 1]); }
  }
}
