/** How the streak of backend/src/routes/habits.rs reacts to log writes and to the weekday mask. */
module HabitLaws {
  import Calendar
  import opened Habits

  ghost predicate AgreeOn(a: Logs, b: Logs, from: Day, upto: Day) {
    forall e :: from <= e <= upto ==> (e in a <==> e in b) && (e in a ==> a[e] == b[e])
  }

  /** A walk depends only on the days it can reach. */
  lemma {:induction false} WalkLocal(logs: Logs, other: Logs, low: Day, day: Day)
    requires AgreeOn(logs, other, low, day) && low <= FirstBreak(logs, day)
    ensures Walk(logs, day) == Walk(other, day)
    decreases day - FirstBreak(logs, day)
  {
    if day > FirstBreak(logs, day) {
      WalkLocal(logs, other, low, day - 1);
    }
  }

  /** A run can be cut in two: the part above `day` counts the same whatever lies below. */
  lemma {:induction false} RunSplit(logs: Logs, other: Logs, day: Day, top: Day)
    requires FirstBreak(logs, top) <= day <= top
    requires AgreeOn(logs, other, day + 1, top)
    ensures Walk(logs, top) - Walk(logs, day) == Walk(other, top) - Walk(other, day)
    decreases top - day
  {
    if day < top {
      RunSplit(logs, other, day, top - 1);
    }
  }

  /** The streak after a first log. */
  lemma FirstLog(day: Day, status: Status)
    ensures StreakQuery(map[day := status]) == if status == Done then 1 else 0
  {
    var logs: Logs := map[day := status];
    StreakIsWalk(logs);
    assert day in logs.Keys;
    assert Latest(logs.Keys) == day;
    assert Walk(logs, day - 1) == 0;
  }

  /** Logging a day after the anchor: the next day extends the run, a later one restarts it. */
  lemma LogAfterAnchor(logs: Logs, day: Day, status: Status)
    requires logs != map[] && day > Latest(logs.Keys)
    ensures StreakQuery(logs[day := status]) ==
            if status.Breaks() then 0
            else (if status == Done then 1 else 0) +
                 (if day == Latest(logs.Keys) + 1 then StreakQuery(logs) else 0)
  {
    var next := logs[day := status];
    assert day in next.Keys;
    assert Latest(next.Keys) == day;
    StreakIsWalk(logs);
    StreakIsWalk(next);
    WalkLocal(logs, next, FirstBreak(logs, day - 1), day - 1);
  }

  /**
   Writing the first break of the run, whether no row was there or a breaking
   one: done joins the run below and adds one, skipped joins it, and a
   breaking status changes nothing.
   */
  lemma FillBreak(logs: Logs, status: Status)
    requires logs != map[]
    ensures var anchor := Latest(logs.Keys);
            var b := FirstBreak(logs, anchor);
            StreakQuery(logs[b := status]) ==
            StreakQuery(logs) + (if status.Breaks() then 0 else
                                 (if status == Done then 1 else 0) + Walk(logs, b - 1))
  {
    hide StreakQuery, Walk, FirstBreak;
    var anchor := Latest(logs.Keys);
    var b := FirstBreak(logs, anchor);
    var next := logs[b := status];
    assert anchor in next.Keys;
    assert Latest(next.Keys) == anchor;
    StreakIsWalk(logs);
    StreakIsWalk(next);
    RunSplit(logs, next, b, anchor);
    WalkLocal(logs, next, FirstBreak(logs, b - 1), b - 1);
    WalkAt(logs, b);
    WalkAt(next, b);
  }

  lemma WalkAt(logs: Logs, day: Day)
    ensures Walk(logs, day) == if day !in logs || logs[day].Breaks() then 0
                               else (if logs[day] == Done then 1 else 0) + Walk(logs, day - 1)
  {
  }

  /**
   Writes older than the first break are invisible, however many and of
   whatever kind: two tables that agree from the break on have one streak.
   */
  lemma OlderWritesInvisible(logs: Logs, other: Logs)
    requires logs != map[]
    requires forall e :: e >= FirstBreak(logs, Latest(logs.Keys)) ==>
                         (e in logs <==> e in other) && (e in logs ==> logs[e] == other[e])
    ensures StreakQuery(other) == StreakQuery(logs)
  {
    var anchor := Latest(logs.Keys);
    assert anchor in other.Keys;
    assert Latest(other.Keys) == anchor;
    StreakIsWalk(logs);
    StreakIsWalk(other);
    RunSplit(logs, other, FirstBreak(logs, anchor), anchor);
  }

  /** Breaking a day of the run, or erasing one below the anchor, keeps only what is above it. */
  lemma BreakRun(logs: Logs, day: Day, other: Logs)
    requires logs != map[]
    requires FirstBreak(logs, Latest(logs.Keys)) < day <= Latest(logs.Keys)
    requires || (other == logs - {day} && day < Latest(logs.Keys))
             || exists s: Status :: s.Breaks() && other == logs[day := s]
    ensures StreakQuery(other) == StreakQuery(logs) - Walk(logs, day)
  {
    var anchor := Latest(logs.Keys);
    assert anchor in other.Keys;
    assert Latest(other.Keys) == anchor;
    StreakIsWalk(logs);
    StreakIsWalk(other);
    RunSplit(logs, other, day, anchor);
  }

  /** Erasing the anchor: the streak is the walk from the latest log that is left. */
  lemma EraseAnchor(logs: Logs)
    requires logs != map[]
    ensures var rest := logs - {Latest(logs.Keys)};
            StreakQuery(rest) == if rest == map[] then 0 else Walk(logs, Latest(rest.Keys))
  {
    var rest := logs - {Latest(logs.Keys)};
    StreakIsWalk(rest);
    if rest != map[] {
      var top := Latest(rest.Keys);
      assert top in logs.Keys;
      WalkLocal(rest, logs, FirstBreak(rest, top), top);
    }
  }

  /** Relabelling a day of the run between done and skipped moves the streak by that day alone. */
  lemma RelabelInRun(logs: Logs, day: Day, status: Status)
    requires logs != map[] && !status.Breaks()
    requires FirstBreak(logs, Latest(logs.Keys)) < day <= Latest(logs.Keys)
    ensures StreakQuery(logs[day := status]) ==
            StreakQuery(logs) + (if status == Done then 1 else 0) - (if logs[day] == Done then 1 else 0)
  {
    hide StreakQuery, Walk, FirstBreak;
    var anchor := Latest(logs.Keys);
    var next := logs[day := status];
    assert anchor in next.Keys && day in logs.Keys;
    assert Latest(next.Keys) == anchor;
    StreakIsWalk(logs);
    StreakIsWalk(next);
    RunSplit(logs, next, day, anchor);
    WalkAt(logs, day);
    WalkAt(next, day);
    WalkLocal(logs, next, FirstBreak(logs, day - 1), day - 1);
  }

  // ----- the weekday mask -----

  /**
   The reading under which a weekday outside the mask is passed over: walk
   back over the scheduled days only, down to the first log.
   */
  function ScheduledWalk(logs: Logs, mask: seq<int>, low: Day, day: Day): nat
    decreases if day < low then 0 else day - low + 1
  {
    if day < low then 0
    else if !Scheduled(mask, day) then ScheduledWalk(logs, mask, low, day - 1)
    else if day !in logs || logs[day].Breaks() then 0
    else (if logs[day] == Done then 1 else 0) + ScheduledWalk(logs, mask, low, day - 1)
  }

  /** From `day` down, a done row is reached through skipped scheduled days only. */
  ghost predicate DoneAhead(logs: Logs, mask: seq<int>, day: Day) {
    exists d ::
      && d <= day && d in logs && logs[d] == Done
      && forall e :: d < e <= day && Scheduled(mask, e) ==> e in logs && logs[e] == Skipped
  }

  lemma {:induction false} ScheduledWalkPositive(logs: Logs, mask: seq<int>, low: Day, day: Day)
    requires forall e :: e in logs ==> low <= e && Scheduled(mask, e)
    ensures ScheduledWalk(logs, mask, low, day) > 0 <==> DoneAhead(logs, mask, day)
    decreases if day < low then 0 else day - low + 1
  {
    if day >= low {
      ScheduledWalkPositive(logs, mask, low, day - 1);
      if DoneAhead(logs, mask, day) {
        var d :| d <= day && d in logs && logs[d] == Done &&
                 forall e :: d < e <= day && Scheduled(mask, e) ==> e in logs && logs[e] == Skipped;
        assert d < day ==> DoneAhead(logs, mask, day - 1);
      } else if DoneAhead(logs, mask, day - 1) {
        var d :| d <= day - 1 && d in logs && logs[d] == Done &&
                 forall e :: d < e <= day - 1 && Scheduled(mask, e) ==> e in logs && logs[e] == Skipped;
        assert Scheduled(mask, day) && !(day in logs && logs[day] == Skipped);
      }
    }
  }

  lemma {:induction false} ScheduledWalkExtends(logs: Logs, mask: seq<int>, low: Day, day: Day)
    requires forall e :: e in logs ==> low <= e && Scheduled(mask, e)
    ensures var b := FirstBreak(logs, day);
            ScheduledWalk(logs, mask, low, day) ==
            Walk(logs, day) + if Scheduled(mask, b) then 0 else ScheduledWalk(logs, mask, low, b - 1)
    decreases day - FirstBreak(logs, day)
  {
    if day > FirstBreak(logs, day) {
      ScheduledWalkExtends(logs, mask, low, day - 1);
    }
  }

  /**
   The query does not pass over weekdays outside the mask. It agrees with the
   reading that does exactly when the run does not end at such a weekday with
   a done day next in line behind it.
   */
  lemma MaskBridgesExactlyWhen(rows: Logs, mask: seq<int>)
    requires Filtered(rows, mask) != map[]
    ensures var logs := Filtered(rows, mask);
            var anchor := Latest(logs.Keys);
            var b := FirstBreak(logs, anchor);
            StreakQuery(logs) == ScheduledWalk(logs, mask, Least(logs.Keys), anchor)
            <==> Scheduled(mask, b) || !DoneAhead(logs, mask, b - 1)
  {
    hide StreakQuery, Walk, ScheduledWalk, DoneAhead, FirstBreak;
    var logs := Filtered(rows, mask);
    var anchor := Latest(logs.Keys);
    StreakIsWalk(logs);
    ScheduledWalkExtends(logs, mask, Least(logs.Keys), anchor);
    ScheduledWalkPositive(logs, mask, Least(logs.Keys), FirstBreak(logs, anchor) - 1);
  }

  /**
   The weekday filter keeps exactly the rows on listed weekdays, counted from
   Friday 4 September 2026 as weekday 5, or every row for an empty mask.
   */
  lemma MaskSelectsWeekdays(rows: Logs, mask: seq<int>, day: Day)
    ensures var weekday := (5 + day - Calendar.DayNumber(Calendar.Date(2026, 9, 4))) % 7;
            && (day in Filtered(rows, mask) <==>
                  day in rows && (|mask| == 0 || exists i :: 0 <= i < |mask| && mask[i] == weekday))
            && (day in Filtered(rows, mask) ==> Filtered(rows, mask)[day] == rows[day])
  {
    Calendar.WeekdayOfEveryDay(day);
  }

  /** Monday to Friday. */
  const WORKDAYS := [1, 2, 3, 4, 5]

  lemma WeekdaysAround(friday: Day)
    requires Calendar.Weekday(friday) == 5
    ensures Scheduled(WORKDAYS, friday) && Scheduled(WORKDAYS, friday + 3)
    ensures !Scheduled(WORKDAYS, friday + 1) && !Scheduled(WORKDAYS, friday + 2)
  {
    assert WORKDAYS[4] == 5 && WORKDAYS[0] == 1;
    assert Calendar.Weekday(friday + 1) == 6 && Calendar.Weekday(friday + 2) == 0 && Calendar.Weekday(friday + 3) == 1;
  }

  /** Done on any Friday and the Monday after it, under a workday mask, is a streak of 1, not 2. */
  lemma WeekendBreaksTheRun(friday: Day)
    requires Calendar.Weekday(friday) == 5
    ensures var logs: Logs := map[friday := Done, friday + 3 := Done];
            && Filtered(logs, WORKDAYS) == logs
            && StreakQuery(logs) == 1
            && ScheduledWalk(logs, WORKDAYS, friday, friday + 3) == 2
  {
    var logs: Logs := map[friday := Done, friday + 3 := Done];
    WeekdaysAround(friday);
    StreakIsWalk(logs);
    assert friday + 3 in logs.Keys && Latest(logs.Keys) == friday + 3;
    assert Walk(logs, friday + 2) == 0;
    assert ScheduledWalk(logs, WORKDAYS, friday, friday - 1) == 0;
    assert ScheduledWalk(logs, WORKDAYS, friday, friday + 1) == 1;
  }

  /**
   The masked-days scenario on its own dates: done on Friday 4, Saturday 5 and
   Sunday 6 September 2026 is a streak of 1 under a workday mask and of 3
   without one.
   */
  lemma WeekendLogsAreIgnored()
    ensures var friday := Calendar.DayNumber(Calendar.Date(2026, 9, 4));
            var rows: Logs := map[friday := Done, friday + 1 := Done, friday + 2 := Done];
            && StreakQuery(Filtered(rows, WORKDAYS)) == 1
            && StreakQuery(Filtered(rows, [])) == 3
  {
    Calendar.WeekdaysAreAligned();
    ThreeDays(Calendar.DayNumber(Calendar.Date(2026, 9, 4)));
  }

  lemma ThreeDays(friday: Day)
    requires Calendar.Weekday(friday) == 5
    ensures var rows: Logs := map[friday := Done, friday + 1 := Done, friday + 2 := Done];
            StreakQuery(Filtered(rows, WORKDAYS)) == 1 && StreakQuery(Filtered(rows, [])) == 3
  {
    hide StreakQuery, Scheduled;
    var rows: Logs := map[friday := Done, friday + 1 := Done, friday + 2 := Done];
    WeekdaysAround(friday);
    EveryDayScheduled(friday);
    assert Filtered(rows, WORKDAYS) == map[friday := Done];
    FirstLog(friday, Done);
    EveryDayScheduled(friday + 1);
    EveryDayScheduled(friday + 2);
    assert Filtered(rows, []) == rows;
    var two: Logs := map[friday := Done, friday + 1 := Done];
    OneMoreDay(map[friday := Done], friday);
    OneMoreDay(two, friday + 1);
    assert map[friday := Done][friday + 1 := Done] == two && two[friday + 2 := Done] == rows;
  }

  lemma EveryDayScheduled(day: Day)
    ensures Scheduled([], day)
  {
  }

  lemma OneMoreDay(logs: Logs, top: Day)
    requires top in logs && forall d :: d in logs ==> d <= top
    ensures StreakQuery(logs[top + 1 := Done]) == StreakQuery(logs) + 1
  {
    hide StreakQuery;
    assert top in logs.Keys && Latest(logs.Keys) == top;
    LogAfterAnchor(logs, top + 1, Done);
  }
}
