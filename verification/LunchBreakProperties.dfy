/** What taking lunch does to an ordered day: the two boundaries nearest noon always face each other,
    a gap of an hour appears between them, and the worked time drops by exactly what was taken. */
module LunchBreakProperties {
  import opened LunchBreak

  /** Non-empty periods in order, none overlapping the next. */
  predicate Ordered(day: seq<Span>) {
    && (forall i :: 0 <= i < |day| ==> day[i].start < day[i].end)
    && (forall i, j :: 0 <= i < j < |day| ==> day[i].end <= day[j].start)
  }

  lemma {:induction false} NearestStartIsFirst(day: seq<Span>, j: nat)
    requires j < |day|
    ensures var i := NearestStart(day);
      Distance(day[i].start) <= Distance(day[j].start) && (j < i ==> Distance(day[i].start) < Distance(day[j].start))
  {
    var last := |day| - 1;
    if last > 0 {
      NearestStartIsFirst(day[..last], if j < last then j else 0);
    }
  }

  lemma {:induction false} NearestEndIsFirst(day: seq<Span>, j: nat)
    requires j < |day|
    ensures var i := NearestEnd(day);
      Distance(day[i].end) <= Distance(day[j].end) && (j < i ==> Distance(day[i].end) < Distance(day[j].end))
  {
    var last := |day| - 1;
    if last > 0 {
      NearestEndIsFirst(day[..last], if j < last then j else 0);
    }
  }

  /** The end nearest noon and the start nearest noon belong to one period, or the start opens the
      period right after the one the end closes. */
  lemma {:induction false} BoundariesFaceEachOther(day: seq<Span>)
    requires Ordered(day) && day != []
    ensures NearestStart(day) == NearestEnd(day) || NearestStart(day) == NearestEnd(day) + 1
  {
    var t, m := NearestStart(day), NearestEnd(day);
    if t < m {
      StartBeforeEnd(day[t].start, day[t].end, day[t + 1].start, day[m].end);
      NearestStartIsFirst(day, t + 1);
      NearestEndIsFirst(day, t);
    } else if m + 1 < t {
      EndBeforeStart(day[m].end, day[m + 1].start, day[m + 1].end, day[t].start);
      NearestStartIsFirst(day, m + 1);
      NearestEndIsFirst(day, m + 1);
    }
  }

  /** A start cannot be nearest noon while an end beyond the next start is nearer than its own end. */
  lemma StartBeforeEnd(start: int, end: int, nextStart: int, laterEnd: int)
    requires start < end <= nextStart < laterEnd
    ensures !(Distance(start) <= Distance(nextStart) && Distance(laterEnd) < Distance(end))
  {
  }

  lemma EndBeforeStart(end: int, nextStart: int, nextEnd: int, laterStart: int)
    requires end <= nextStart < nextEnd <= laterStart
    ensures !(Distance(end) <= Distance(nextEnd) && Distance(laterStart) < Distance(nextStart))
  {
  }

  lemma {:induction false} WorkedConcat(a: seq<Span>, b: seq<Span>)
    ensures Worked(a + b) == Worked(a) + Worked(b)
  {
    if b == [] {
      assert a + b == a;
    } else {
      assert (a + b)[..|a + b| - 1] == a + b[..|b| - 1];
      WorkedConcat(a, b[..|b| - 1]);
    }
  }

  lemma WorkedOne(s: Span)
    ensures Worked([s]) == s.end - s.start
  {
    assert [s][..0] == [];
  }

  lemma WorkedReplace(day: seq<Span>, i: nat, middle: seq<Span>)
    requires i < |day|
    ensures Worked(day[..i] + middle + day[i + 1..]) == Worked(day) - (day[i].end - day[i].start) + Worked(middle)
  {
    WorkedConcat(day[..i] + middle, day[i + 1..]);
    WorkedConcat(day[..i], middle);
    assert day == day[..i] + [day[i]] + day[i + 1..];
    WorkedConcat(day[..i] + [day[i]], day[i + 1..]);
    WorkedConcat(day[..i], [day[i]]);
    WorkedOne(day[i]);
  }

  function Max(a: int, b: int): int { if a < b then b else a }

  /** Between period `i` of `day` and the period that `i` itself (`t == i`) or the next one (`t == i + 1`)
      becomes in `after`, there is a gap of at least an hour, and of exactly an hour unless it was longer
      before; every other boundary is kept; and the worked time drops by exactly the part of the hour
      that was not a gap already. */
  predicate HourTaken(day: seq<Span>, after: seq<Span>, i: nat, t: nat)
    requires i < |day| && t < |day|
  {
    var gap := if t == i then 0 else day[t].start - day[i].end;
    && |after| == |day| + (if t == i then 1 else 0) && i + 1 < |after|
    && after[i + 1].start - after[i].end == Max(HOUR, gap)
    && Worked(after) == Worked(day) - Max(0, HOUR - gap)
    && after[..i] == day[..i] && after[i].start == day[i].start
    && after[i + 1].end == day[t].end && after[i + 2..] == day[t + 1..]
  }

  /** Up to six hours of work nothing changes; beyond, the hour is taken at the boundary nearest noon. */
  lemma LunchTakesTheHour(day: seq<Span>)
    requires Ordered(day)
    ensures Worked(day) <= 6 * HOUR ==> Lunch(day) == day
    ensures Worked(day) > 6 * HOUR ==> HourTaken(day, Lunch(day), NearestEnd(day), NearestStart(day))
  {
    if Worked(day) > 6 * HOUR {
      BoundariesFaceEachOther(day);
      var i := NearestEnd(day);
      if NearestStart(day) == i {
        SplitTakesTheHour(day, i);
      } else {
        PushTakesTheHour(day, i);
      }
    }
  }

  /** Where a split period loses its hour: its second half starts at its middle, an odd number of ticks rounded so
      that the half taken off is even, and its first half ends an hour before. */
  lemma TheHourEndsAtTheMiddle(day: seq<Span>, i: nat)
    requires Worked(day) > 6 * HOUR && i < |day| && NearestStart(day) == i && NearestEnd(day) == i
    ensures var after := Lunch(day);
      && |after| == |day| + 1 && after[..i] == day[..i] && after[i + 2..] == day[i + 1..]
      && after[i].start == day[i].start && after[i + 1].end == day[i].end
      && after[i].end == after[i + 1].start - 36_000_000_000
      && -1 <= 2 * after[i + 1].start - day[i].start - day[i].end <= 1
      && ((day[i].end - day[i].start) % 2 == 1 ==> (day[i].end - after[i + 1].start) % 2 == 0)
  {
  }

  /** The first boundaries nearest noon, which is 432,000,000,000 ticks into the day. */
  lemma NearestNoon(day: seq<Span>, t: nat, m: nat)
    requires t < |day| && m < |day|
    requires forall j :: 0 <= j < |day| ==>
      && Abs(day[t].start - 432_000_000_000) <= Abs(day[j].start - 432_000_000_000)
      && (j < t ==> Abs(day[t].start - 432_000_000_000) < Abs(day[j].start - 432_000_000_000))
      && Abs(day[m].end - 432_000_000_000) <= Abs(day[j].end - 432_000_000_000)
      && (j < m ==> Abs(day[m].end - 432_000_000_000) < Abs(day[j].end - 432_000_000_000))
    ensures NearestStart(day) == t && NearestEnd(day) == m
  {
    NearestStartIsFirst(day, t);
    NearestEndIsFirst(day, m);
    assert Abs(day[NearestStart(day)].start - 432_000_000_000) == Distance(day[NearestStart(day)].start);
    assert Abs(day[NearestEnd(day)].end - 432_000_000_000) == Distance(day[NearestEnd(day)].end);
  }

  function Abs(x: int): int { if x < 0 then -x else x }

  lemma SplitTakesTheHour(day: seq<Span>, i: nat)
    requires i < |day|
    ensures HourTaken(day, Split(day, i), i, i)
  {
    var middle := day[i].end - Half(day[i].end - day[i].start);
    WorkedSplit(day, i, middle - HOUR, middle);
  }

  lemma WorkedSplit(day: seq<Span>, i: nat, x: int, y: int)
    requires i < |day|
    ensures Worked(day[..i] + [Span(day[i].start, x), Span(y, day[i].end)] + day[i + 1..]) == Worked(day) - (y - x)
  {
    var a, b := Span(day[i].start, x), Span(y, day[i].end);
    WorkedReplace(day, i, [a, b]);
    assert [a, b] == [a] + [b];
    WorkedConcat([a], [b]);
    WorkedOne(a);
    WorkedOne(b);
  }

  lemma PushTakesTheHour(day: seq<Span>, i: nat)
    requires i + 1 < |day|
    ensures HourTaken(day, Push(day, i, i + 1), i, i + 1)
  {
    if day[i + 1].start - day[i].end < HOUR {
      var later := Span(day[i].end + HOUR, day[i + 1].end);
      WorkedReplace(day, i + 1, [later]);
      assert Push(day, i, i + 1) == day[..i + 1] + [later] + day[i + 2..];
      WorkedOne(later);
    }
  }

  /** The room the hour needs: half of a split period, or the period after the gap. */
  predicate HasRoom(day: seq<Span>)
    requires day != []
  {
    var t, m := NearestStart(day), NearestEnd(day);
    if t == m then day[m].end - day[m].start - Half(day[m].end - day[m].start) > HOUR
    else day[m].end + HOUR < day[t].end
  }

  /** The day stays an ordered list of non-empty periods exactly when the hour has room; otherwise a
      period comes out empty or running backwards. */
  lemma StaysOrderedExactlyWithRoom(day: seq<Span>)
    requires Ordered(day) && Worked(day) > 6 * HOUR
    ensures Ordered(Lunch(day)) <==> HasRoom(day)
  {
    BoundariesFaceEachOther(day);
    var t, m, after := NearestStart(day), NearestEnd(day), Lunch(day);
    if t == m {
      assert after[m] == Span(day[m].start, day[m].end - Half(day[m].end - day[m].start) - HOUR);
      if HasRoom(day) { SplitStaysOrdered(day, m); }
    } else {
      assert after[t].end == day[t].end && (after[t].start == day[m].end + HOUR || after == day);
    }
  }

  lemma SplitStaysOrdered(day: seq<Span>, m: nat)
    requires Ordered(day) && m < |day| && day[m].end - day[m].start - Half(day[m].end - day[m].start) > HOUR
    ensures Ordered(Split(day, m))
  {
    var after := Split(day, m);
    forall i, j | 0 <= i < j < |after| ensures after[i].end <= after[j].start {
      var p, q := if i <= m then i else i - 1, if j <= m then j else j - 1;
      assert p < q ==> day[p].end <= day[q].start;
    }
    forall i | 0 <= i < |after| ensures after[i].start < after[i].end {
      assert m + 1 < i ==> after[i] == day[i - 1];
    }
  }

  /** Four hours in the morning, a quarter of an hour after noon and three hours in the afternoon: the push
      moves the short period's start past its own end. */
  lemma ShortPeriodRunsBackwards(day: seq<Span>)
    requires day == [Span(8 * HOUR, 12 * HOUR), Span(12 * HOUR + HOUR / 4, 12 * HOUR + HOUR / 2), Span(14 * HOUR, 17 * HOUR)]
    ensures Ordered(day) && Worked(day) > 6 * HOUR
    ensures Lunch(day)[1] == Span(13 * HOUR, 12 * HOUR + HOUR / 2) && !Ordered(Lunch(day))
  {
    var two, one := day[..2], day[..1];
    assert two[..1] == one && one[..0] == [];
    assert Worked(one) == 4 * HOUR;
    assert Worked(two) == 4 * HOUR + HOUR / 4;
    assert NearestStart(one) == 0 && NearestEnd(one) == 0;
    assert NearestStart(two) == 1 && NearestEnd(two) == 0;
    assert NearestStart(day) == 1 && NearestEnd(day) == 0;
  }
}
