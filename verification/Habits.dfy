/**
 The habit streak read model of backend/src/routes/habits.rs.

 A day is a calendar day number. `Logs` is what one habit's log table looks
 like after the weekday filter of the query: at most one row per day, because
 (habit, date) is unique.
 */
module Habits {
  import opened Prelude
  import Calendar

  type Day = int

  datatype Status = Done | Missed | NotDone | Skipped {
    predicate Breaks() { Missed? || NotDone? }
  }

  type Logs = map<Day, Status>

  /** A weekday mask; the empty mask schedules every day. */
  predicate Scheduled(mask: seq<int>, day: Day) {
    |mask| == 0 || Calendar.Weekday(day) in mask
  }

  function Filtered(rows: Logs, mask: seq<int>): Logs {
    map day | day in rows && Scheduled(mask, day) :: rows[day]
  }

  // ----- the window query -----

  ghost function Latest(s: set<int>): (m: int)
    requires s != {}
    ensures m in s && forall x :: x in s ==> x <= m
    decreases |s|
  {
    Inhabited(s);
    var x :| x in s;
    if s == {x} then x else
      assert s == {x} + (s - {x});
      Max(x, Latest(s - {x}))
  }

  ghost function Least(s: set<int>): (m: int)
    requires s != {}
    ensures m in s && forall x :: x in s ==> m <= x
    decreases |s|
  {
    Inhabited(s);
    var x :| x in s;
    if s == {x} then x else
      assert s == {x} + (s - {x});
      Min(x, Least(s - {x}))
  }

  function NonSkip(logs: Logs): set<Day> {
    set day | day in logs && logs[day] != Skipped
  }

  function Skips(logs: Logs): set<Day> {
    set day | day in logs && logs[day] == Skipped
  }

  function LaterThan(days: set<Day>, day: Day): set<Day> {
    set e | e in days && e > day
  }

  /** `ROW_NUMBER() OVER (ORDER BY log_date DESC)` among the non-skipped rows. */
  function RowNumber(logs: Logs, day: Day): int {
    1 + |LaterThan(NonSkip(logs), day)|
  }

  function SkippedAfter(logs: Logs, day: Day): int {
    |LaterThan(Skips(logs), day)|
  }

  /** The `WHERE` clause of the `cut` subquery. */
  ghost predicate Cuts(logs: Logs, day: Day)
    requires day in logs
  {
    || logs[day].Breaks()
    || day != Latest(logs.Keys) - (RowNumber(logs, day) - 1 + SkippedAfter(logs, day))
  }

  ghost function CutRows(logs: Logs): set<int> {
    set day | day in NonSkip(logs) && Cuts(logs, day) :: RowNumber(logs, day)
  }

  /** The streak query: `COALESCE(MIN(rn) of the cut rows, COUNT(*) + 1) - 1`. */
  ghost function StreakQuery(logs: Logs): int {
    (if CutRows(logs) == {} then |NonSkip(logs)| + 1 else Least(CutRows(logs))) - 1
  }

  // ----- the backward day walk -----

  /** How far the earliest row is below a logged day. */
  ghost function Depth(logs: Logs, day: Day): nat {
    if day in logs then day - Least(logs.Keys) + 1 else 0
  }

  /** Walk back from `day`: done adds one, skipped passes, anything else stops. */
  function Walk(logs: Logs, day: Day): nat
    decreases Depth(logs, day)
  {
    if day !in logs || logs[day].Breaks() then 0
    else (if logs[day] == Done then 1 else 0) + Walk(logs, day - 1)
  }

  /** The first day at or before `day`, going back, that has no row or a breaking one. */
  function FirstBreak(logs: Logs, day: Day): (b: Day)
    ensures b <= day
    ensures b !in logs || logs[b].Breaks()
    ensures forall e :: b < e <= day ==> e in logs && !logs[e].Breaks()
    decreases Depth(logs, day)
  {
    if day !in logs || logs[day].Breaks() then day else FirstBreak(logs, day - 1)
  }

  /** The rows a walk from `day` counts. */
  function Counted(logs: Logs, from: Day, upto: Day): set<Day> {
    set e | e in NonSkip(logs) && from < e <= upto
  }

  lemma {:induction false} WalkCounts(logs: Logs, day: Day)
    ensures Walk(logs, day) == |Counted(logs, FirstBreak(logs, day), day)|
    decreases Depth(logs, day)
  {
    var b := FirstBreak(logs, day);
    if b == day {
      assert Counted(logs, b, day) == {};
    } else {
      WalkCounts(logs, day - 1);
      assert Counted(logs, b, day) ==
             Counted(logs, b, day - 1) + if logs[day] == Done then {day} else {};
    }
  }

  // ----- the query is the walk -----

  function Interval(from: Day, upto: Day): (days: set<Day>)
    requires from <= upto
    ensures forall e :: e in days <==> from < e <= upto
    ensures |days| == upto - from
    decreases upto - from
  {
    if from == upto then {} else Interval(from, upto - 1) + {upto}
  }

  /** The date arithmetic of the query detects a hole between a row and the anchor. */
  lemma DateArithmeticFindsHoles(logs: Logs, day: Day)
    requires day in logs
    ensures var anchor := Latest(logs.Keys);
            day == anchor - (RowNumber(logs, day) - 1 + SkippedAfter(logs, day))
            <==> forall e :: day < e <= anchor ==> e in logs
  {
    var anchor := Latest(logs.Keys);
    var nonskip, skips := LaterThan(NonSkip(logs), day), LaterThan(Skips(logs), day);
    var later := nonskip + skips;
    assert nonskip * skips == {};
    assert later == set e | e in logs && e > day;
    var all := Interval(day, anchor);
    assert later <= all;
    assert |all - later| == |all| - |later|;
    if forall e :: day < e <= anchor ==> e in logs {
      assert all == later;
    } else {
      var e :| day < e <= anchor && e !in logs;
      assert e in all - later;
    }
  }

  /** Later rows have smaller row numbers. */
  lemma RowNumberAntitone(logs: Logs, d: Day, e: Day)
    requires d <= e
    ensures RowNumber(logs, e) <= RowNumber(logs, d)
  {
    SubsetSize(LaterThan(NonSkip(logs), e), LaterThan(NonSkip(logs), d));
  }

  /** No row above the first break is cut; the latest row at or below it is. */
  lemma CutsStartAtBreak(logs: Logs, b: Day, d: Day)
    requires d in NonSkip(logs) && b == FirstBreak(logs, Latest(logs.Keys))
    ensures d > b ==> !Cuts(logs, d)
    ensures d == b || b !in logs ==> d <= b ==> Cuts(logs, d)
  {
    assert d in logs.Keys;
    DateArithmeticFindsHoles(logs, d);
  }

  /** The window query counts exactly the non-skipped rows above the first break. */
  lemma QueryCountsAboveBreak(logs: Logs)
    requires logs != map[]
    ensures var anchor := Latest(logs.Keys);
            StreakQuery(logs) == |Counted(logs, FirstBreak(logs, anchor), anchor)|
  {
    hide Cuts, RowNumber, FirstBreak;
    var anchor := Latest(logs.Keys);
    var b := FirstBreak(logs, anchor);
    var above := Counted(logs, b, anchor);
    assert above == LaterThan(NonSkip(logs), b);
    var below := set d | d in NonSkip(logs) && d <= b;
    forall d | d in NonSkip(logs) ensures d > b ==> !Cuts(logs, d) {
      CutsStartAtBreak(logs, b, d);
    }
    if below == {} {
      assert forall d :: d in NonSkip(logs) && d !in below ==> d in above;
      assert NonSkip(logs) == above;
      assert CutRows(logs) == {};
    } else {
      var top := Latest(below);
      if b in logs {
        assert b in below;
      }
      CutsStartAtBreak(logs, b, top);
      TopRowNumber(logs, b, top, below);
      assert RowNumber(logs, top) in CutRows(logs);
      forall rn | rn in CutRows(logs) ensures RowNumber(logs, top) <= rn {
        var d :| d in NonSkip(logs) && Cuts(logs, d) && RowNumber(logs, d) == rn;
        assert d in below;
        RowNumberAntitone(logs, d, top);
      }
    }
  }

  lemma TopRowNumber(logs: Logs, b: Day, top: Day, below: set<Day>)
    requires below == (set d | d in NonSkip(logs) && d <= b) && top in below && forall d :: d in below ==> d <= top
    ensures RowNumber(logs, top) == 1 + |LaterThan(NonSkip(logs), b)|
  {
    forall d ensures d in LaterThan(NonSkip(logs), top) <==> d in LaterThan(NonSkip(logs), b) {
      assert d in NonSkip(logs) ==> (d in below <==> d <= b);
    }
    assert LaterThan(NonSkip(logs), top) == LaterThan(NonSkip(logs), b);
  }

  /** The streak read: for every log table and mask the query is the backward walk. */
  lemma StreakIsWalk(logs: Logs)
    ensures StreakQuery(logs) == if logs == map[] then 0 else Walk(logs, Latest(logs.Keys))
  {
    if logs == map[] {
      assert NonSkip(logs) == {};
      assert CutRows(logs) == {};
    } else {
      QueryCountsAboveBreak(logs);
      WalkCounts(logs, Latest(logs.Keys));
    }
  }
}
