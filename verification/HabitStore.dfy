/** Log writes, the streak read and the today read of backend/src/routes/habits.rs. */
module HabitStore {
  import opened Prelude
  import opened Habits
  import opened HabitLaws
  import TodayQuery

  type UserId = nat
  type HabitId = nat

  datatype Habit = Habit(user: UserId, mask: seq<int>, archived: bool)

  datatype LogRow = LogRow(user: UserId, status: Status)

  /** The log table maps (habit, date) to a row, so that pair is unique. */
  datatype Db = Db(habits: map<HabitId, Habit>, rows: map<HabitId, map<Day, LogRow>>)

  datatype Response = Ok | NotFound | Conflict | Invalid

  function RowsOf(db: Db, habit: HabitId): map<Day, LogRow> {
    if habit in db.rows then db.rows[habit] else map[]
  }

  /** The rows `WHERE habit_id = $1 AND user_id = $2`, before the weekday filter. */
  function LogsOf(db: Db, habit: HabitId, user: UserId): Logs {
    map day | day in RowsOf(db, habit) && RowsOf(db, habit)[day].user == user :: RowsOf(db, habit)[day].status
  }

  function WithRow(db: Db, habit: HabitId, day: Day, row: LogRow): Db {
    db.(rows := db.rows[habit := RowsOf(db, habit)[day := row]])
  }

  function WithoutRow(db: Db, habit: HabitId, day: Day): Db {
    db.(rows := db.rows[habit := RowsOf(db, habit) - {day}])
  }

  /** The shared gate of the log writes: no future dates, owned habits only. */
  function WriteGate(db: Db, habit: HabitId, user: UserId, day: Day, today: Day): Response {
    if day > today then Invalid
    else if habit in db.habits && db.habits[habit].user == user then Ok
    else if habit in db.habits then NotFound
    else Invalid
  }

  function CreateLog(db: Db, user: UserId, habit: HabitId, day: Day, status: Status, today: Day): (Db, Response) {
    var gate := WriteGate(db, habit, user, day, today);
    if day > today || status == NotDone then (db, Invalid)
    else if gate != Ok then (db, gate)
    else if day in RowsOf(db, habit) then (db, Conflict)
    else (WithRow(db, habit, day, LogRow(user, status)), Ok)
  }

  /** A patch without a status changes only the fields this model leaves out. */
  function PatchLog(
      db: Db, user: UserId, habit: HabitId, day: Day, status: Option<Status>, today: Day): (Db, Response)
  {
    var gate := WriteGate(db, habit, user, day, today);
    if day > today || status == Some(NotDone) then (db, Invalid)
    else if gate != Ok then (db, gate)
    else if day in RowsOf(db, habit) && RowsOf(db, habit)[day].user == user then
      if status.Some? then (WithRow(db, habit, day, LogRow(user, status.value)), Ok) else (db, Ok)
    else (db, NotFound)
  }

  function DeleteLog(db: Db, user: UserId, habit: HabitId, day: Day, today: Day): (Db, Response) {
    var gate := WriteGate(db, habit, user, day, today);
    if gate != Ok then (db, gate)
    else if day in RowsOf(db, habit) && RowsOf(db, habit)[day].user == user then (WithoutRow(db, habit, day), Ok)
    else (db, Ok)
  }

  /** `GET /habits/:id/streak`: the stored mask doubles as the ownership probe. */
  ghost function StreakRead(db: Db, user: UserId, habit: HabitId): Option<int> {
    if habit in db.habits && db.habits[habit].user == user
    then Some(StreakQuery(Filtered(LogsOf(db, habit, user), db.habits[habit].mask)))
    else None
  }

  datatype TodayStatus = Logged(status: Status) | Pending | NotScheduled

  /** The rows the lateral subquery selects for the habit row it is evaluated at. */
  function LateralRows(db: Db, id: HabitId): set<TodayQuery.Row>
    requires id in db.habits
  {
    var table := RowsOf(db, id);
    set day | day in table && table[day].user == db.habits[id].user && Scheduled(db.habits[id].mask, day) ::
      TodayQuery.Row(day, table[day].status)
  }

  /** One line of the today read: the lateral streak and the state of the day. */
  ghost function TodayRead(db: Db, user: UserId, today: Day): map<HabitId, (int, TodayStatus)> {
    map h | h in db.habits && db.habits[h].user == user && !db.habits[h].archived ::
      var habit := db.habits[h];
      var mine := LogsOf(db, h, habit.user);
      (TodayQuery.LateralStreak(LateralRows(db, h)),
       if today in mine then Logged(mine[today])
       else if Scheduled(habit.mask, today) then Pending else NotScheduled)
  }

  /** Rows belong to the owner of their habit. */
  ghost predicate Owned(db: Db) {
    forall h :: h in db.rows ==>
      forall d :: d in db.rows[h] ==> h in db.habits && db.rows[h][d].user == db.habits[h].user
  }

  /** No row is dated after `today`. */
  ghost predicate Past(db: Db, today: Day) {
    forall h :: h in db.rows ==> forall d :: d in db.rows[h] ==> d <= today
  }

  /** Every row of the legacy status was there before. */
  ghost predicate NoNewLegacy(before: Db, after: Db) {
    forall h, d :: h in after.rows && d in after.rows[h] && after.rows[h][d].status == NotDone ==>
      d in RowsOf(before, h) && RowsOf(before, h)[d] == after.rows[h][d]
  }

  /** What log writes keep: ownership, dates in the past, and no legacy row but those of `origin`. */
  ghost predicate Reachable(origin: Db, db: Db, today: Day) {
    Owned(db) && Past(db, today) && NoNewLegacy(origin, db)
  }

  lemma LogWritesKeepReachable(
      origin: Db, db: Db, user: UserId, habit: HabitId, day: Day, status: Option<Status>, today: Day)
    requires Reachable(origin, db, today)
    ensures status.Some? ==> Reachable(origin, CreateLog(db, user, habit, day, status.value, today).0, today)
    ensures Reachable(origin, PatchLog(db, user, habit, day, status, today).0, today)
    ensures Reachable(origin, DeleteLog(db, user, habit, day, today).0, today)
  {
    hide Reachable, WithRow, WithoutRow;
    if WriteGate(db, habit, user, day, today) == Ok {
      ErasingKeepsReachable(origin, db, habit, day, today);
      if status.Some? && status.value != NotDone {
        WritingKeepsReachable(origin, db, habit, day, LogRow(user, status.value), today);
      }
    }
  }

  lemma WritingKeepsReachable(origin: Db, db: Db, habit: HabitId, day: Day, row: LogRow, today: Day)
    requires Reachable(origin, db, today) && day <= today && row.status != NotDone
    requires habit in db.habits && row.user == db.habits[habit].user
    ensures Reachable(origin, WithRow(db, habit, day, row), today)
  {
  }

  lemma ErasingKeepsReachable(origin: Db, db: Db, habit: HabitId, day: Day, today: Day)
    requires Reachable(origin, db, today)
    ensures Reachable(origin, WithoutRow(db, habit, day), today)
  {
  }

  datatype LogWrite =
    | Create(user: UserId, habit: HabitId, day: Day, status: Status, today: Day)
    | Patch(user: UserId, habit: HabitId, day: Day, newStatus: Option<Status>, today: Day)
    | Delete(user: UserId, habit: HabitId, day: Day, today: Day)

  function Written(db: Db, w: LogWrite): Db {
    match w
    case Create(user, habit, day, status, today) => CreateLog(db, user, habit, day, status, today).0
    case Patch(user, habit, day, status, today) => PatchLog(db, user, habit, day, status, today).0
    case Delete(user, habit, day, today) => DeleteLog(db, user, habit, day, today).0
  }

  function AfterWrites(db: Db, writes: seq<LogWrite>): Db {
    if |writes| == 0 then db else Written(AfterWrites(db, writes[..|writes| - 1]), writes[|writes| - 1])
  }

  /**
   Whatever is sent by whom: every run of log writes, days never running
   backwards, keeps rows owned and in the past, and adds no legacy row to
   those it started with.
   */
  lemma {:induction false} RunsStayReachable(db: Db, writes: seq<LogWrite>, start: Day)
    requires Owned(db) && Past(db, start)
    requires forall i, j :: 0 <= i <= j < |writes| ==> start <= writes[i].today <= writes[j].today
    ensures Reachable(db, AfterWrites(db, writes), if |writes| == 0 then start else writes[|writes| - 1].today)
  {
    if |writes| > 0 {
      hide Reachable, CreateLog, PatchLog, DeleteLog;
      var w := writes[|writes| - 1];
      var before := AfterWrites(db, writes[..|writes| - 1]);
      RunsStayReachable(db, writes[..|writes| - 1], start);
      var last := if |writes| == 1 then start else writes[|writes| - 2].today;
      ReachableLater(db, before, last, w.today);
      var status := if w.Create? then Some(w.status) else if w.Patch? then w.newStatus else None;
      LogWritesKeepReachable(db, before, w.user, w.habit, w.day, status, w.today);
    }
  }

  lemma ReachableLater(origin: Db, db: Db, today: Day, later: Day)
    requires Reachable(origin, db, today) && today <= later
    ensures Reachable(origin, db, later)
  {
  }

  // ----- what each log write answers and does -----

  /** All rows but that of one habit and day are the same. */
  ghost predicate SameElsewhere(before: Db, after: Db, habit: HabitId, day: Day) {
    && after.habits == before.habits
    && forall h, d :: h != habit || d != day ==>
         && (d in RowsOf(after, h) <==> d in RowsOf(before, h))
         && (d in RowsOf(before, h) ==> RowsOf(after, h)[d] == RowsOf(before, h)[d])
  }

  /**
   A create is accepted for the owner on any day up to today that has no row.
   A future day, the legacy status and an unknown habit are invalid, a foreign
   habit is not found, and a second row of a day is a conflict.
   */
  lemma CreateDoes(db: Db, user: UserId, habit: HabitId, day: Day, status: Status, today: Day)
    ensures var (after, answer) := CreateLog(db, user, habit, day, status, today);
            && answer ==
               (if day > today || status == NotDone || habit !in db.habits then Invalid
                else if db.habits[habit].user != user then NotFound
                else if habit in db.rows && day in db.rows[habit] then Conflict
                else Ok)
            && (answer != Ok ==> after == db)
            && (answer == Ok ==>
                  && SameElsewhere(db, after, habit, day)
                  && habit in after.rows && day in after.rows[habit]
                  && after.rows[habit][day].user == user && after.rows[habit][day].status == status)
  {
  }

  /** A patch is accepted for the owner's own row of a day up to today; without a status it changes nothing. */
  lemma PatchDoes(db: Db, user: UserId, habit: HabitId, day: Day, status: Option<Status>, today: Day)
    ensures var (after, answer) := PatchLog(db, user, habit, day, status, today);
            && answer ==
               (if day > today || status == Some(NotDone) || habit !in db.habits then Invalid
                else if db.habits[habit].user != user then NotFound
                else if !(habit in db.rows && day in db.rows[habit] && db.rows[habit][day].user == user) then NotFound
                else Ok)
            && (answer != Ok || status.None? ==> after == db)
            && (answer == Ok && status.Some? ==>
                  && SameElsewhere(db, after, habit, day)
                  && habit in after.rows && day in after.rows[habit]
                  && after.rows[habit][day].user == user && after.rows[habit][day].status == status.value)
  {
  }

  /** A delete is accepted for the owner on any day up to today, row or no row, and leaves none. */
  lemma DeleteDoes(db: Db, user: UserId, habit: HabitId, day: Day, today: Day)
    requires Owned(db)
    ensures var (after, answer) := DeleteLog(db, user, habit, day, today);
            && answer ==
               (if day > today || habit !in db.habits then Invalid
                else if db.habits[habit].user != user then NotFound
                else Ok)
            && (answer != Ok ==> after == db)
            && (answer == Ok ==>
                  && SameElsewhere(db, after, habit, day)
                  && !(habit in after.rows && day in after.rows[habit]))
  {
  }

  lemma RowSeenThroughMask(db: Db, user: UserId, habit: HabitId, day: Day, status: Status, mask: seq<int>)
    ensures var logs := Filtered(LogsOf(db, habit, user), mask);
            && Filtered(LogsOf(WithRow(db, habit, day, LogRow(user, status)), habit, user), mask) ==
               (if Scheduled(mask, day) then logs[day := status] else logs - {day})
            && Filtered(LogsOf(WithoutRow(db, habit, day), habit, user), mask) == logs - {day}
  {
    hide Scheduled, LogsOf, WithRow, WithoutRow;
    LogsAfterWrite(db, user, habit, day, status);
    var logs := LogsOf(db, habit, user);
    assert Filtered(logs[day := status], mask) ==
           if Scheduled(mask, day) then Filtered(logs, mask)[day := status] else Filtered(logs, mask) - {day};
    assert Filtered(logs - {day}, mask) == Filtered(logs, mask) - {day};
  }

  lemma FilteredAt(logs: Logs, mask: seq<int>, day: Day)
    ensures day in Filtered(logs, mask) <==> day in logs && Scheduled(mask, day)
    ensures day !in Filtered(logs, mask) ==> Filtered(logs, mask) - {day} == Filtered(logs, mask)
  {
  }

  lemma LogsAfterWrite(db: Db, user: UserId, habit: HabitId, day: Day, status: Status)
    ensures LogsOf(WithRow(db, habit, day, LogRow(user, status)), habit, user) == LogsOf(db, habit, user)[day := status]
    ensures LogsOf(WithoutRow(db, habit, day), habit, user) == LogsOf(db, habit, user) - {day}
  {
    var before := RowsOf(db, habit);
    assert RowsOf(WithRow(db, habit, day, LogRow(user, status)), habit) == before[day := LogRow(user, status)];
    assert RowsOf(WithoutRow(db, habit, day), habit) == before - {day};
  }

  /**
   What a write does to the reads: the written habit's filtered table changes
   at that day alone, and only if the day is scheduled.
   */
  lemma WriteSeenThroughMask(db: Db, user: UserId, habit: HabitId, day: Day, status: Status, today: Day, mask: seq<int>)
    requires Owned(db) && WriteGate(db, habit, user, day, today) == Ok && status != NotDone
    ensures var logs := Filtered(LogsOf(db, habit, user), mask);
            var created := CreateLog(db, user, habit, day, status, today);
            var patched := PatchLog(db, user, habit, day, Some(status), today);
            var deleted := DeleteLog(db, user, habit, day, today);
            var written := if Scheduled(mask, day) then logs[day := status] else logs;
            && created.1 == (if day in LogsOf(db, habit, user) then Conflict else Ok)
            && patched.1 == (if day in LogsOf(db, habit, user) then Ok else NotFound)
            && deleted.1 == Ok
            && (created.1 == Ok ==> Filtered(LogsOf(created.0, habit, user), mask) == written)
            && (patched.1 == Ok ==> Filtered(LogsOf(patched.0, habit, user), mask) == written)
            && Filtered(LogsOf(deleted.0, habit, user), mask) == logs - {day}
  {
    RowSeenThroughMask(db, user, habit, day, status, mask);
    var logs := Filtered(LogsOf(db, habit, user), mask);
    assert !Scheduled(mask, day) ==> logs - {day} == logs;
    assert day !in RowsOf(db, habit) ==> logs - {day} == logs;
    assert day in RowsOf(db, habit) ==> RowsOf(db, habit)[day].user == user;
  }

  lemma OtherHabitsUntouched(db: Db, user: UserId, habit: HabitId, day: Day, status: Status, today: Day)
    ensures forall h :: h != habit ==>
              && RowsOf(CreateLog(db, user, habit, day, status, today).0, h) == RowsOf(db, h)
              && RowsOf(PatchLog(db, user, habit, day, Some(status), today).0, h) == RowsOf(db, h)
              && RowsOf(DeleteLog(db, user, habit, day, today).0, h) == RowsOf(db, h)
  {
  }

  lemma HabitsKept(db: Db, habit: HabitId, day: Day)
    ensures forall row :: WithRow(db, habit, day, row).habits == db.habits
    ensures WithoutRow(db, habit, day).habits == db.habits
  {
  }

  /** Writes on weekdays outside the mask, by whomever and of whatever kind, never move anyone's streak read. */
  lemma MaskedOutWritesInvisible(
      db: Db, user: UserId, habit: HabitId, day: Day, status: Status, patch: Option<Status>, today: Day, reader: UserId)
    requires habit in db.habits && !Scheduled(db.habits[habit].mask, day)
    ensures StreakRead(CreateLog(db, user, habit, day, status, today).0, reader, habit) ==
            StreakRead(db, reader, habit)
    ensures StreakRead(PatchLog(db, user, habit, day, patch, today).0, reader, habit) == StreakRead(db, reader, habit)
    ensures StreakRead(DeleteLog(db, user, habit, day, today).0, reader, habit) == StreakRead(db, reader, habit)
  {
    hide StreakQuery, Filtered, LogsOf, RowsOf, WithRow, WithoutRow, Scheduled;
    var mask := db.habits[habit].mask;
    FilteredAt(LogsOf(db, habit, user), mask, day);
    HabitsKept(db, habit, day);
    RowSeenThroughMask(db, user, habit, day, status, mask);
    RowSeenThroughMask(db, user, habit, day, if patch.Some? then patch.value else status, mask);
  }

  /** Logging a scheduled day past the anchor moves the streak read as the law for the anchor says. */
  lemma LoggingAfterAnchorMovesStreak(db: Db, user: UserId, habit: HabitId, day: Day, status: Status, today: Day)
    requires Owned(db) && WriteGate(db, habit, user, day, today) == Ok && status != NotDone
    requires Scheduled(db.habits[habit].mask, day)
    requires var logs := Filtered(LogsOf(db, habit, user), db.habits[habit].mask);
             logs != map[] && day > Latest(logs.Keys)
    ensures var logs := Filtered(LogsOf(db, habit, user), db.habits[habit].mask);
            var (after, answer) := CreateLog(db, user, habit, day, status, today);
            && answer == Ok
            && StreakRead(after, user, habit) ==
               Some(if status == Missed then 0
                    else (if status == Done then 1 else 0) +
                         (if day == Latest(logs.Keys) + 1 then StreakRead(db, user, habit).value else 0))
  {
    hide StreakQuery;
    var mask := db.habits[habit].mask;
    var logs := Filtered(LogsOf(db, habit, user), mask);
    WriteSeenThroughMask(db, user, habit, day, status, today, mask);
    assert day !in logs.Keys;
    LogAfterAnchor(logs, day, status);
  }

  /**
   Writing the first break of the run. One of create and patch accepts it, by
   whether the day has a row, and the streak read moves as the law says.
   */
  lemma WritingBreakMovesStreak(db: Db, user: UserId, habit: HabitId, day: Day, status: Status, today: Day)
    requires Owned(db) && WriteGate(db, habit, user, day, today) == Ok && status != NotDone
    requires Scheduled(db.habits[habit].mask, day)
    requires var logs := Filtered(LogsOf(db, habit, user), db.habits[habit].mask);
             logs != map[] && day == FirstBreak(logs, Latest(logs.Keys))
    ensures var logs := Filtered(LogsOf(db, habit, user), db.habits[habit].mask);
            var created := CreateLog(db, user, habit, day, status, today);
            var patched := PatchLog(db, user, habit, day, Some(status), today);
            var moved := StreakRead(db, user, habit).value +
                         (if status == Missed then 0 else (if status == Done then 1 else 0) + Walk(logs, day - 1));
            && (created.1 == Ok <==> day !in logs) && (patched.1 == Ok <==> day in logs)
            && (created.1 == Ok ==> StreakRead(created.0, user, habit) == Some(moved))
            && (patched.1 == Ok ==> StreakRead(patched.0, user, habit) == Some(moved))
  {
    hide StreakQuery, Walk, FirstBreak, Filtered, LogsOf, RowsOf, Latest, Owned;
    var mask := db.habits[habit].mask;
    WriteSeenThroughMask(db, user, habit, day, status, today, mask);
    FilteredAt(LogsOf(db, habit, user), mask, day);
    FillBreak(Filtered(LogsOf(db, habit, user), mask), status);
  }

  /** Patching or deleting a day inside the run, the anchor included. */
  lemma WritingInRunMovesStreak(db: Db, user: UserId, habit: HabitId, day: Day, status: Status, today: Day)
    requires Owned(db) && WriteGate(db, habit, user, day, today) == Ok && status != NotDone
    requires var logs := Filtered(LogsOf(db, habit, user), db.habits[habit].mask);
             logs != map[] && FirstBreak(logs, Latest(logs.Keys)) < day <= Latest(logs.Keys)
    ensures var logs := Filtered(LogsOf(db, habit, user), db.habits[habit].mask);
            var rest := logs - {day};
            var before := StreakRead(db, user, habit).value;
            var patched := PatchLog(db, user, habit, day, Some(status), today);
            var deleted := DeleteLog(db, user, habit, day, today);
            && patched.1 == Ok && deleted.1 == Ok
            && StreakRead(patched.0, user, habit) ==
               Some(if status == Missed then before - Walk(logs, day)
                    else before + (if status == Done then 1 else 0) - (if logs[day] == Done then 1 else 0))
            && StreakRead(deleted.0, user, habit) ==
               Some(if day < Latest(logs.Keys) then before - Walk(logs, day)
                    else if rest == map[] then 0 else Walk(logs, Latest(rest.Keys)))
  {
    hide StreakQuery, Walk, FirstBreak, Filtered, LogsOf, RowsOf, CreateLog, Latest, Owned;
    var mask := db.habits[habit].mask;
    var logs := Filtered(LogsOf(db, habit, user), mask);
    RunDayIsLogged(db, user, habit, mask, day);
    WriteSeenThroughMask(db, user, habit, day, status, today, mask);
    RewriteInRun(logs, day, status);
    EraseInRun(logs, day);
  }

  lemma RunDayIsLogged(db: Db, user: UserId, habit: HabitId, mask: seq<int>, day: Day)
    ensures var logs := Filtered(LogsOf(db, habit, user), mask);
            logs != map[] && FirstBreak(logs, Latest(logs.Keys)) < day <= Latest(logs.Keys) ==>
              day in logs && Scheduled(mask, day) && day in LogsOf(db, habit, user)
  {
  }

  lemma RewriteInRun(logs: Logs, day: Day, status: Status)
    requires logs != map[] && FirstBreak(logs, Latest(logs.Keys)) < day <= Latest(logs.Keys)
    ensures StreakQuery(logs[day := status]) ==
            if status.Breaks() then StreakQuery(logs) - Walk(logs, day)
            else StreakQuery(logs) + (if status == Done then 1 else 0) - (if logs[day] == Done then 1 else 0)
  {
    hide StreakQuery, Walk, FirstBreak;
    if status.Breaks() {
      BreakRun(logs, day, logs[day := status]);
    } else {
      RelabelInRun(logs, day, status);
    }
  }

  lemma EraseInRun(logs: Logs, day: Day)
    requires logs != map[] && FirstBreak(logs, Latest(logs.Keys)) < day <= Latest(logs.Keys)
    ensures var rest := logs - {day};
            StreakQuery(rest) ==
            if day < Latest(logs.Keys) then StreakQuery(logs) - Walk(logs, day)
            else if rest == map[] then 0 else Walk(logs, Latest(rest.Keys))
  {
    hide StreakQuery, Walk, FirstBreak;
    if day < Latest(logs.Keys) {
      BreakRun(logs, day, logs - {day});
    } else {
      EraseAnchor(logs);
    }
  }

  lemma SameRowsSameReads(db: Db, other: Db)
    requires other.habits == db.habits && forall h :: RowsOf(other, h) == RowsOf(db, h)
    ensures forall user, habit :: StreakRead(other, user, habit) == StreakRead(db, user, habit)
    ensures forall user, today :: TodayRead(other, user, today) == TodayRead(db, user, today)
  {
    hide StreakQuery, TodayQuery.LateralStreak, RowsOf;
    forall user, habit ensures StreakRead(other, user, habit) == StreakRead(db, user, habit) {
      assert LogsOf(other, habit, user) == LogsOf(db, habit, user);
    }
    forall user, today ensures TodayRead(other, user, today) == TodayRead(db, user, today) {
      SameLines(db, other, user, today, db.habits.Keys);
    }
  }

  /** Habits whose rows agree have the same line in the today read. */
  lemma SameLines(db: Db, other: Db, user: UserId, today: Day, habits: set<HabitId>)
    requires other.habits == db.habits && forall h :: h in habits ==> RowsOf(other, h) == RowsOf(db, h)
    ensures TodayRead(other, user, today).Keys == TodayRead(db, user, today).Keys
    ensures forall h :: h in habits && h in TodayRead(db, user, today) ==>
              TodayRead(other, user, today)[h] == TodayRead(db, user, today)[h]
  {
    hide StreakQuery, TodayQuery.LateralStreak, RowsOf;
    forall h | h in habits && h in TodayRead(db, user, today)
      ensures TodayRead(other, user, today)[h] == TodayRead(db, user, today)[h]
    {
      assert LateralRows(other, h) == LateralRows(db, h);
      assert LogsOf(other, h, db.habits[h].user) == LogsOf(db, h, db.habits[h].user);
    }
  }

  /** The toggle: logging a day and deleting the log again restores every read of every user. */
  lemma CreateThenDelete(db: Db, user: UserId, habit: HabitId, day: Day, status: Status, today: Day)
    requires CreateLog(db, user, habit, day, status, today).1 == Ok
    ensures var toggled := DeleteLog(CreateLog(db, user, habit, day, status, today).0, user, habit, day, today);
            && toggled.1 == Ok
            && (forall reader, h :: StreakRead(toggled.0, reader, h) == StreakRead(db, reader, h))
            && forall reader, on :: TodayRead(toggled.0, reader, on) == TodayRead(db, reader, on)
  {
    hide StreakRead, TodayRead;
    var toggled := DeleteLog(CreateLog(db, user, habit, day, status, today).0, user, habit, day, today).0;
    assert RowsOf(toggled, habit) == RowsOf(db, habit)[day := LogRow(user, status)] - {day};
    assert RowsOf(db, habit)[day := LogRow(user, status)] - {day} == RowsOf(db, habit);
    SameRowsSameReads(db, toggled);
  }

  /** A log write moves no line of anyone's today read but that of its habit. */
  lemma WritesMoveOneLine(db: Db, user: UserId, habit: HabitId, day: Day, status: Status, today: Day, reader: UserId)
    ensures forall after :: after in [CreateLog(db, user, habit, day, status, today).0,
                                      PatchLog(db, user, habit, day, Some(status), today).0,
                                      DeleteLog(db, user, habit, day, today).0] ==>
              && TodayRead(after, reader, today).Keys == TodayRead(db, reader, today).Keys
              && forall h :: h != habit && h in TodayRead(db, reader, today) ==>
                   TodayRead(after, reader, today)[h] == TodayRead(db, reader, today)[h]
  {
    hide TodayRead;
    OtherHabitsUntouched(db, user, habit, day, status, today);
    var others := db.habits.Keys - {habit};
    assert TodayRead(db, reader, today).Keys <= db.habits.Keys by { TodayReadListsHabits(db, reader, today); }
    SameLines(db, CreateLog(db, user, habit, day, status, today).0, reader, today, others);
    SameLines(db, PatchLog(db, user, habit, day, Some(status), today).0, reader, today, others);
    SameLines(db, DeleteLog(db, user, habit, day, today).0, reader, today, others);
  }

  lemma TodayReadListsHabits(db: Db, user: UserId, today: Day)
    ensures TodayRead(db, user, today).Keys <= db.habits.Keys
  {
  }

  /** The today read lists the caller's live habits, each with the streak its own read gives. */
  lemma TodayStreakIsStreakRead(db: Db, user: UserId, today: Day, habit: HabitId)
    ensures habit in TodayRead(db, user, today) <==>
            StreakRead(db, user, habit).Some? && !db.habits[habit].archived
    ensures habit in TodayRead(db, user, today) ==>
            StreakRead(db, user, habit) == Some(TodayRead(db, user, today)[habit].0)
  {
    if habit in db.habits {
      hide StreakQuery, TodayQuery.LateralStreak;
      var logs := Filtered(LogsOf(db, habit, db.habits[habit].user), db.habits[habit].mask);
      LateralRowsSelected(db, habit);
      TodayQuery.LateralIsStreakQuery(logs);
    }
  }

  lemma LateralRowsSelected(db: Db, id: HabitId)
    requires id in db.habits
    ensures LateralRows(db, id) ==
            TodayQuery.Selected(Filtered(LogsOf(db, id, db.habits[id].user), db.habits[id].mask))
  {
    hide Scheduled;
    var logs := Filtered(LogsOf(db, id, db.habits[id].user), db.habits[id].mask);
    forall r ensures r in LateralRows(db, id) <==> r in TodayQuery.Selected(logs) {
      assert r in TodayQuery.Selected(logs) <==> r.logDate in logs && logs[r.logDate] == r.status;
    }
  }

  /**
   The streak shown beside the state of today. A log of a scheduled day carries
   on the walk up to yesterday; without one, and on days off, it is the walk
   from the latest scheduled log, which is older than today.
   */
  lemma TodayStatusExplainsStreak(db: Db, user: UserId, today: Day, habit: HabitId)
    requires Past(db, today) && habit in TodayRead(db, user, today)
    ensures var logs := Filtered(LogsOf(db, habit, user), db.habits[habit].mask);
            var (streak, state) := TodayRead(db, user, today)[habit];
            var scheduled := Scheduled(db.habits[habit].mask, today);
            && (today in LogsOf(db, habit, user) ==> state == Logged(LogsOf(db, habit, user)[today]))
            && (today !in LogsOf(db, habit, user) ==> state == if scheduled then Pending else NotScheduled)
            && if scheduled && state.Logged? then
                 streak == match state.status
                           case Done => 1 + Walk(logs, today - 1)
                           case Skipped => Walk(logs, today - 1)
                           case _ => 0
               else if logs == map[] then streak == 0
               else Latest(logs.Keys) < today && streak == Walk(logs, Latest(logs.Keys))
  {
    hide StreakQuery, TodayQuery.LateralStreak;
    var logs := Filtered(LogsOf(db, habit, user), db.habits[habit].mask);
    TodayStreakIsStreakRead(db, user, today, habit);
    StreakIsWalk(logs);
    assert forall d :: d in logs.Keys ==> d <= today;
    if today in logs {
      assert today in logs.Keys;
      assert Latest(logs.Keys) == today;
    } else {
      assert today !in logs.Keys;
    }
  }

  /** The tables, updated in place by the handlers. */
  class Store {
    var habits: map<HabitId, Habit>
    var rows: map<HabitId, map<Day, LogRow>>

    ghost function Tables(): Db
      reads this
    {
      Db(habits, rows)
    }

    method Gate(habit: HabitId, user: UserId, day: Day, today: Day) returns (r: Response)
      ensures r == WriteGate(Tables(), habit, user, day, today)
    {
      if day > today {
        r := Invalid;
      } else if habit in habits {
        r := if habits[habit].user == user then Ok else NotFound;
      } else {
        r := Invalid;
      }
    }

    method CreateLogHandler(user: UserId, habit: HabitId, day: Day, status: Status, today: Day) returns (r: Response)
      modifies this
      ensures (Tables(), r) == CreateLog(old(Tables()), user, habit, day, status, today)
    {
      if day > today || status == NotDone {
        return Invalid;
      }
      r := Gate(habit, user, day, today);
      if r == Ok {
        var table := if habit in rows then rows[habit] else map[];
        if day in table {
          return Conflict;
        }
        rows := rows[habit := table[day := LogRow(user, status)]];
      }
    }

    method PatchLogHandler(user: UserId, habit: HabitId, day: Day, status: Option<Status>, today: Day)
      returns (r: Response)
      modifies this
      ensures (Tables(), r) == PatchLog(old(Tables()), user, habit, day, status, today)
    {
      if day > today || status == Some(NotDone) {
        return Invalid;
      }
      r := Gate(habit, user, day, today);
      if r == Ok {
        var table := if habit in rows then rows[habit] else map[];
        if day !in table || table[day].user != user {
          return NotFound;
        }
        if status.Some? {
          rows := rows[habit := table[day := LogRow(user, status.value)]];
        }
      }
    }

    method DeleteLogHandler(user: UserId, habit: HabitId, day: Day, today: Day) returns (r: Response)
      modifies this
      ensures (Tables(), r) == DeleteLog(old(Tables()), user, habit, day, today)
    {
      r := Gate(habit, user, day, today);
      if r == Ok {
        var table := if habit in rows then rows[habit] else map[];
        if day in table && table[day].user == user {
          rows := rows[habit := table - {day}];
        }
      }
    }
  }
}
