/**
 The lateral subquery of the today read, backend/src/routes/habits.rs: a copy
 of the streak query that is evaluated once per habit. Here it is stated over
 the set of selected rows, not over a table with one row per day.
 */
module TodayQuery {
  import opened Prelude
  import opened Habits

  datatype Row = Row(logDate: Day, status: Status)

  function Dates(rows: set<Row>): set<Day> {
    set r | r in rows :: r.logDate
  }

  function NonskipLater(rows: set<Row>, day: Day): set<Row> {
    set r | r in rows && r.status != Skipped && r.logDate > day
  }

  function SkippedBridge(rows: set<Row>, day: Day): set<Row> {
    set r | r in rows && r.status == Skipped && r.logDate > day
  }

  /** The row number of a non-skipped row, latest date first. */
  function Rn(rows: set<Row>, r: Row): int {
    1 + |NonskipLater(rows, r.logDate)|
  }

  ghost predicate IsCut(rows: set<Row>, r: Row)
    requires r in rows
  {
    || r.status == Missed
    || r.status == NotDone
    || (assert r.logDate in Dates(rows);
        r.logDate != Latest(Dates(rows)) - (Rn(rows, r) - 1 + |SkippedBridge(rows, r.logDate)|))
  }

  ghost function Cut(rows: set<Row>): set<int> {
    set r | r in rows && r.status != Skipped && IsCut(rows, r) :: Rn(rows, r)
  }

  ghost function LateralStreak(rows: set<Row>): int {
    var nonskip := set r | r in rows && r.status != Skipped;
    (if Cut(rows) == {} then |nonskip| + 1 else Least(Cut(rows))) - 1
  }

  /** The rows of a table that has one row per day. */
  function Selected(logs: Logs): set<Row> {
    set day | day in logs :: Row(day, logs[day])
  }

  function RowsOn(logs: Logs, days: set<Day>): set<Row>
    requires days <= logs.Keys
  {
    set day | day in days :: Row(day, logs[day])
  }

  lemma {:induction false} RowsPerDay(logs: Logs, days: set<Day>)
    requires days <= logs.Keys
    ensures |RowsOn(logs, days)| == |days|
    decreases |days|
  {
    Inhabited(days);
    if day: Day :| day in days {
      RowsPerDay(logs, days - {day});
      assert RowsOn(logs, days) == RowsOn(logs, days - {day}) + {Row(day, logs[day])};
    } else {
      assert days == {};
    }
  }

  lemma SameCounts(logs: Logs, day: Day)
    ensures 1 + |NonskipLater(Selected(logs), day)| == RowNumber(logs, day)
    ensures |SkippedBridge(Selected(logs), day)| == SkippedAfter(logs, day)
  {
    var rows := Selected(logs);
    assert NonskipLater(rows, day) == RowsOn(logs, LaterThan(NonSkip(logs), day));
    assert SkippedBridge(rows, day) == RowsOn(logs, LaterThan(Skips(logs), day));
    RowsPerDay(logs, LaterThan(NonSkip(logs), day));
    RowsPerDay(logs, LaterThan(Skips(logs), day));
  }

  lemma SameCut(logs: Logs, day: Day)
    requires day in logs
    ensures IsCut(Selected(logs), Row(day, logs[day])) <==> Cuts(logs, day)
    ensures Rn(Selected(logs), Row(day, logs[day])) == RowNumber(logs, day)
  {
    hide NonskipLater, SkippedBridge, RowNumber, SkippedAfter;
    SameCounts(logs, day);
    SameDates(logs);
  }

  lemma SameDates(logs: Logs)
    ensures Dates(Selected(logs)) == logs.Keys
  {
    forall day ensures day in Dates(Selected(logs)) <==> day in logs.Keys {
      assert day in logs.Keys ==> Row(day, logs[day]) in Selected(logs);
    }
  }

  /** The lateral copy counts what the streak query counts. */
  lemma LateralIsStreakQuery(logs: Logs)
    ensures LateralStreak(Selected(logs)) == StreakQuery(logs)
  {
    hide IsCut, Cuts, Rn, RowNumber;
    var rows := Selected(logs);
    forall rn ensures rn in Cut(rows) <==> rn in CutRows(logs) {
      if rn in Cut(rows) {
        var r :| r in rows && r.status != Skipped && IsCut(rows, r) && Rn(rows, r) == rn;
        SameCut(logs, r.logDate);
        assert r.logDate in NonSkip(logs);
      }
      if rn in CutRows(logs) {
        var day :| day in NonSkip(logs) && Cuts(logs, day) && RowNumber(logs, day) == rn;
        SameCut(logs, day);
        assert Row(day, logs[day]) in rows;
      }
    }
    assert Cut(rows) == CutRows(logs);
    var nonskip := set r | r in rows && r.status != Skipped;
    assert nonskip == RowsOn(logs, NonSkip(logs));
    RowsPerDay(logs, NonSkip(logs));
  }
}
