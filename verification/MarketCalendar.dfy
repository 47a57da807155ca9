// The exchange calendar: regular sessions, holidays and early closes, in exchange-local time.
module MarketCalendar {

  // Day 0 is a Monday; minutes count from midnight.
  type Day = int

  datatype Moment = Moment(day: Day, minute: int)

  const OPEN := 570    // 09:30
  const CLOSE := 960   // 16:00
  const EARLY := 780   // 13:00

  datatype Calendar = Calendar(holidays: seq<Day>, earlyCloses: seq<Day>)

  predicate Before(a: Moment, b: Moment) {
    a.day < b.day || (a.day == b.day && a.minute < b.minute)
  }

  function Weekday(d: Day): int {
    d % 7
  }

  predicate IsTradingDay(c: Calendar, d: Day) {
    Weekday(d) < 5 && d !in c.holidays
  }

  function SessionClose(c: Calendar, d: Day): int {
    if d in c.earlyCloses then EARLY else CLOSE
  }

  predicate IsMarketOpen(c: Calendar, now: Moment) {
    IsTradingDay(c, now.day) && OPEN <= now.minute < SessionClose(c, now.day)
  }

  predicate IsSessionStart(c: Calendar, t: Moment) {
    IsTradingDay(c, t.day) && t.minute == OPEN
  }

  predicate IsSessionClose(c: Calendar, t: Moment) {
    IsTradingDay(c, t.day) && t.minute == SessionClose(c, t.day)
  }

  ghost predicate IsNextStart(c: Calendar, after: Moment, t: Moment) {
    && IsSessionStart(c, t) && Before(after, t)
    && forall u :: IsSessionStart(c, u) && Before(after, u) ==> !Before(u, t)
  }

  ghost predicate IsNextClose(c: Calendar, after: Moment, t: Moment) {
    && IsSessionClose(c, t) && Before(after, t)
    && forall u :: IsSessionClose(c, u) && Before(after, u) ==> !Before(u, t)
  }

  // --- the rules for half-days ---------------------------------------------------------------

  // Of the year's candidates, weekends and full holidays are never half-days.
  method BuildEarlyCloses(candidates: seq<Day>, holidays: seq<Day>) returns (out: seq<Day>)
    ensures forall d :: d in out <==> d in candidates && Weekday(d) < 5 && d !in holidays
  {
    out := [];
    for i := 0 to |candidates|
      invariant forall d :: d in out <==> d in candidates[..i] && Weekday(d) < 5 && d !in holidays
    {
      if Weekday(candidates[i]) >= 5 || candidates[i] in holidays {
        continue;
      }
      out := out + [candidates[i]];
    }
  }

  // The fourth Thursday on or after the first of November.
  method Thanksgiving(firstOfNovember: Day) returns (d: Day)
    ensures Weekday(d) == 3 && firstOfNovember + 21 <= d < firstOfNovember + 28
  {
    d := firstOfNovember;
    ghost var thursday := (10 - Weekday(firstOfNovember)) % 7;
    assert Weekday(firstOfNovember + thursday) == 3;
    while Weekday(d) != 3
      invariant firstOfNovember <= d <= firstOfNovember + thursday
      invariant forall e :: firstOfNovember <= e < d ==> Weekday(e) != 3
      decreases firstOfNovember + thursday - d
    {
      d := d + 1;
    }
    d := d + 21;
  }

  // --- the next session ----------------------------------------------------------------------

  function Last(holidays: seq<Day>): Day {
    if holidays == [] then 0
    else if holidays[|holidays| - 1] > Last(holidays[..|holidays| - 1]) then holidays[|holidays| - 1]
    else Last(holidays[..|holidays| - 1])
  }

  lemma {:induction false} LastIsLast(holidays: seq<Day>)
    ensures forall d :: d in holidays ==> d <= Last(holidays)
  {
    if holidays != [] {
      LastIsLast(holidays[..|holidays| - 1]);
      assert holidays == holidays[..|holidays| - 1] + [holidays[|holidays| - 1]];
    }
  }

  // The first Monday past both the start and the last holiday; the search ends by then.
  function Horizon(c: Calendar, from: Day): Day {
    var past := if Last(c.holidays) > from then Last(c.holidays) else from;
    past + 7 - past % 7
  }

  lemma HorizonTrades(c: Calendar, from: Day)
    ensures IsTradingDay(c, Horizon(c, from)) && Horizon(c, from) > from
  {
    LastIsLast(c.holidays);
  }

  // The first trading day on or after a day.
  method FirstTradingDay(c: Calendar, from: Day) returns (d: Day)
    ensures d >= from && IsTradingDay(c, d) && forall e :: from <= e < d ==> !IsTradingDay(c, e)
  {
    HorizonTrades(c, from);
    d := from;
    while !IsTradingDay(c, d)
      invariant from <= d <= Horizon(c, from)
      invariant forall e :: from <= e < d ==> !IsTradingDay(c, e)
      decreases Horizon(c, from) - d
    {
      d := d + 1;
    }
  }

  // The least session start strictly after the given moment, for any finite set of holidays.
  method NextOpen(c: Calendar, after: Moment) returns (t: Moment)
    ensures IsNextStart(c, after, t)
  {
    if after.minute < OPEN && IsTradingDay(c, after.day) {
      return Moment(after.day, OPEN);
    }
    var d := FirstTradingDay(c, after.day + 1);
    t := Moment(d, OPEN);
  }

  // The least session close strictly after the given moment.
  method NextClose(c: Calendar, after: Moment) returns (t: Moment)
    ensures IsNextClose(c, after, t)
  {
    if IsMarketOpen(c, after) {
      return Moment(after.day, SessionClose(c, after.day));
    }
    var next := NextOpen(c, after);
    t := Moment(next.day, SessionClose(c, next.day));
    NoCloseBetween(c, after, next, t);
  }

  lemma NoCloseBetween(c: Calendar, after: Moment, next: Moment, t: Moment)
    requires !IsMarketOpen(c, after) && IsNextStart(c, after, next)
    requires t == Moment(next.day, SessionClose(c, next.day))
    ensures IsNextClose(c, after, t)
  {
    forall u | IsSessionClose(c, u) && Before(after, u)
      ensures !Before(u, t)
    {
      var start := Moment(u.day, OPEN);
      assert IsSessionStart(c, start);
      if Before(after, start) {
        assert !Before(start, next);
      }
    }
  }

  // The market is open exactly when it closes before it next opens.
  lemma OpenMeansCloseComesFirst(c: Calendar, now: Moment, open: Moment, close: Moment)
    requires IsNextStart(c, now, open) && IsNextClose(c, now, close)
    ensures IsMarketOpen(c, now) <==> Before(close, open)
  {
    if IsMarketOpen(c, now) {
      var today := Moment(now.day, SessionClose(c, now.day));
      assert IsSessionClose(c, today) && Before(now, today);
      assert !Before(today, close);
    }
    if Before(close, open) {
      var start := Moment(close.day, OPEN);
      assert IsSessionStart(c, start);
      assert Before(now, start) ==> !Before(start, open);
    }
  }

  // Sessions run on weekdays that are no holiday, from half past nine to four, to one o'clock on half-days; day
  // zero is a Monday.
  lemma SessionHours(c: Calendar, now: Moment)
    ensures IsMarketOpen(c, now)
            <==> now.day % 7 != 5 && now.day % 7 != 6 && now.day !in c.holidays
                 && 9 * 60 + 30 <= now.minute < if now.day in c.earlyCloses then 13 * 60 else 16 * 60
  {}
}
