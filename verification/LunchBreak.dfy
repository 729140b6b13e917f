/** The lunch interval of a working day: the period boundaries nearest noon decide where one hour is
    taken out, either by splitting a period in two or by pushing a period's start later. Times are in
    ticks, ten million to the second. */
module LunchBreak {

  const HOUR := 36_000_000_000
  const NOON := 12 * HOUR

  datatype Span = Span(start: int, end: int)

  class Period {
    var start: int
    var end: int

    constructor (start: int, end: int)
      ensures this.start == start && this.end == end
    {
      this.start, this.end := start, end;
    }

    function View(): Span
      reads this
    {
      Span(start, end)
    }
  }

  function Distance(t: int): nat {
    if t < NOON then NOON - t else t - NOON
  }

  function Worked(day: seq<Span>): int {
    if day == [] then 0 else Worked(day[..|day| - 1]) + (day[|day| - 1].end - day[|day| - 1].start)
  }

  /** Half of a duration in ticks, an odd one rounded to the even neighbour. */
  function Half(ticks: int): (h: int)
    ensures 2 * h - 1 <= ticks <= 2 * h + 1
  {
    if ticks % 2 == 0 then ticks / 2
    else if (ticks / 2) % 2 == 0 then ticks / 2
    else ticks / 2 + 1
  }

  /** The first period whose start is nearest noon. */
  function NearestStart(day: seq<Span>): (i: nat)
    requires day != []
    ensures i < |day|
  {
    var last := |day| - 1;
    if last == 0 then 0
    else
      var best := NearestStart(day[..last]);
      if Distance(day[last].start) < Distance(day[best].start) then last else best
  }

  /** The first period whose end is nearest noon. */
  function NearestEnd(day: seq<Span>): (i: nat)
    requires day != []
    ensures i < |day|
  {
    var last := |day| - 1;
    if last == 0 then 0
    else
      var best := NearestEnd(day[..last]);
      if Distance(day[last].end) < Distance(day[best].end) then last else best
  }

  /** One more period: it is nearest only when it is strictly nearer. */
  lemma NearestStep(day: seq<Span>, i: nat)
    requires 0 < i < |day|
    ensures var best := NearestStart(day[..i]);
      NearestStart(day[..i + 1]) == if Distance(day[i].start) < Distance(day[best].start) then i else best
    ensures var best := NearestEnd(day[..i]);
      NearestEnd(day[..i + 1]) == if Distance(day[i].end) < Distance(day[best].end) then i else best
  {
    assert day[..i + 1][..i] == day[..i];
  }

  function Split(day: seq<Span>, i: nat): seq<Span>
    requires i < |day|
  {
    var middle := day[i].end - Half(day[i].end - day[i].start);
    day[..i] + [Span(day[i].start, middle - HOUR), Span(middle, day[i].end)] + day[i + 1..]
  }

  function Push(day: seq<Span>, morning: nat, afternoon: nat): seq<Span>
    requires morning < |day| && afternoon < |day|
  {
    if day[afternoon].start - day[morning].end < HOUR
    then day[afternoon := Span(day[morning].end + HOUR, day[afternoon].end)]
    else day
  }

  /** The day with its lunch interval: untouched up to six hours of work, else one hour is taken
      out at the boundaries nearest noon. */
  function Lunch(day: seq<Span>): seq<Span> {
    if Worked(day) <= 6 * HOUR then day
    else if NearestStart(day) == NearestEnd(day) then Split(day, NearestStart(day))
    else Push(day, NearestEnd(day), NearestStart(day))
  }

  lemma SomeoneWorked(day: seq<Span>)
    requires Worked(day) > 0
    ensures day != []
  {
  }

  class PeriodList {
    var items: seq<Period>

    /** No period object is in the list twice. */
    ghost predicate Valid()
      reads this
    {
      forall i, j :: 0 <= i < j < |items| ==> items[i] != items[j]
    }

    ghost function Day(): (d: seq<Span>)
      reads this, items
      ensures |d| == |items| && forall i :: 0 <= i < |d| ==> d[i] == items[i].View()
    {
      seq(|items|, i requires 0 <= i < |items| reads this, items => items[i].View())
    }

    /** Pairs a flat list of clock-ins and clock-outs; an odd one out is an index error. */
    constructor FromTimes(times: seq<int>)
      requires |times| % 2 == 0
      ensures Valid() && fresh(items) && |items| == |times| / 2
      ensures forall i :: 0 <= i < |items| ==> Day()[i] == Span(times[2 * i], times[2 * i + 1])
    {
      items := [];
      new;
      var i := 0;
      while i < |times|
        invariant 0 <= i <= |times| && i % 2 == 0 && |items| == i / 2
        invariant Valid() && fresh(items)
        invariant forall k :: 0 <= k < |items| ==> items[k].View() == Span(times[2 * k], times[2 * k + 1])
      {
        var p := new Period(times[i], times[i + 1]);
        items := items + [p];
        i := i + 2;
      }
    }

    method WorkedTime() returns (total: int)
      requires Valid()
      ensures total == Worked(Day())
    {
      total := 0;
      for i := 0 to |items|
        invariant total == Worked(Day()[..i])
      {
        assert Day()[..i + 1][..i] == Day()[..i];
        total := total + (items[i].end - items[i].start);
      }
      assert Day()[..|items|] == Day();
    }

    /** Finds both boundaries in one pass and takes the hour out. */
    method TakeLunch()
      requires Valid()
      modifies this, items
      ensures Valid()
      ensures Day() == Lunch(old(Day()))
    {
      var total := WorkedTime();
      if total <= 6 * HOUR { return; }
      SomeoneWorked(Day());
      var afternoon, morning := FindBoundaries();
      if afternoon == morning {
        SplitPeriod(afternoon);
      } else {
        PushPeriod(morning, afternoon);
      }
    }

    method FindBoundaries() returns (afternoon: nat, morning: nat)
      requires Valid() && items != []
      ensures afternoon == NearestStart(Day()) && morning == NearestEnd(Day())
    {
      afternoon, morning := 0, 0;
      var nearestStart, nearestEnd := Distance(items[0].start), Distance(items[0].end);
      ghost var day := Day();
      for i := 1 to |items|
        invariant afternoon == NearestStart(day[..i]) && nearestStart == Distance(day[afternoon].start)
        invariant morning == NearestEnd(day[..i]) && nearestEnd == Distance(day[morning].end)
      {
        NearestStep(day, i);
        var toStart, toEnd := Distance(items[i].start), Distance(items[i].end);
        if toStart < nearestStart { afternoon, nearestStart := i, toStart; }
        if toEnd < nearestEnd { morning, nearestEnd := i, toEnd; }
      }
      assert day[..|items|] == day;
    }

    method SplitPeriod(index: nat)
      requires Valid() && index < |items|
      modifies this, items[index]
      ensures Valid() && Day() == Split(old(Day()), index)
      ensures |items| == old(|items|) + 1 && items[..index + 1] == old(items[..index + 1])
      ensures fresh(items[index + 1]) && items[index + 2..] == old(items[index + 1..])
      ensures items[index].start == old(items[index].start) && items[index + 1].end == old(items[index].end)
      ensures items[index].end == items[index + 1].start - HOUR
      ensures -1 <= 2 * items[index + 1].start - old(items[index].start) - old(items[index].end) <= 1
    {
      var whole := items[index];
      var secondHalf := new Period(whole.end - Half(whole.end - whole.start), whole.end);
      whole.end := secondHalf.start - HOUR;
      items := items[..index + 1] + [secondHalf] + items[index + 1..];
    }

    method PushPeriod(morning: nat, afternoon: nat)
      requires Valid() && morning < |items| && afternoon < |items|
      modifies items[afternoon]
      ensures items == old(items) && Day() == Push(old(Day()), morning, afternoon)
    {
      if items[afternoon].start - items[morning].end < HOUR {
        items[afternoon].start := items[morning].end + HOUR;
      }
    }
  }
}
