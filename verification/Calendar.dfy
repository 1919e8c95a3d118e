/**
 The Gregorian calendar and the subscription cycle arithmetic of
 backend/src/finance/dates.rs.

 A date is a (year, month, day) triple; `DayNumber` counts days, so that a
 distance in days is a difference of day numbers. Month lengths and the leap
 year rule are those of section 5.7 and Appendix C of RFC 3339.
 */
module Calendar {
  import opened Prelude

  datatype Date = Date(year: int, month: int, day: int)

  type NaiveDate = d: Date | IsValid(d) witness Date(1970, 1, 1)

  predicate IsValid(d: Date) {
    && 1 <= d.month <= 12
    && 1 <= d.day <= DaysInMonth(d.year, d.month)
  }

  predicate IsLeap(year: int) {
    year % 4 == 0 && (year % 100 != 0 || year % 400 == 0)
  }

  function DaysInMonth(year: int, month: int): int
    requires 1 <= month <= 12
  {
    if month == 2 then if IsLeap(year) then 29 else 28
    else if month == 4 || month == 6 || month == 9 || month == 11 then 30
    else 31
  }

  // ----- day numbers -----

  /** Months are numbered consecutively: month index 12 * year + (month - 1). */
  function MonthIndex(d: NaiveDate): int {
    d.year * 12 + (d.month - 1)
  }

  function MonthLength(index: int): (n: int)
    ensures 28 <= n <= 31
  {
    DaysInMonth(index / 12, index % 12 + 1)
  }

  /** Days from 1 January of year 1 (month index 12) to the first of a month. */
  function MonthStart(index: int): int
    decreases if index < 12 then 12 - index else index - 12
  {
    if index == 12 then 0
    else if index > 12 then MonthStart(index - 1) + MonthLength(index - 1)
    else MonthStart(index + 1) - MonthLength(index)
  }

  function DayNumber(d: NaiveDate): int {
    MonthStart(MonthIndex(d)) + d.day
  }

  /** Weekday as `EXTRACT(DOW ...)` numbers it: 0 is Sunday, 6 is Saturday. */
  function Weekday(dayNumber: int): int {
    dayNumber % 7
  }

  /** The calendar order on dates (what `<` on `NaiveDate` compares). */
  predicate Before(a: NaiveDate, b: NaiveDate) {
    || a.year < b.year
    || (a.year == b.year && a.month < b.month)
    || (a.year == b.year && a.month == b.month && a.day < b.day)
  }

  function Later(a: NaiveDate, b: NaiveDate): NaiveDate {
    if Before(a, b) then b else a
  }

  lemma {:induction false} MonthStartSpan(i: int, j: int)
    requires i <= j
    ensures 28 * (j - i) <= MonthStart(j) - MonthStart(i) <= 31 * (j - i)
    decreases j - i
  {
    if i < j {
      MonthStartSpan(i, j - 1);
    }
  }

  /** Day numbers represent the calendar order faithfully. */
  lemma OrderIsDayNumber(a: NaiveDate, b: NaiveDate)
    ensures Before(a, b) <==> DayNumber(a) < DayNumber(b)
    ensures DayNumber(a) == DayNumber(b) <==> a == b
  {
    DayNumberWithinMonth(a, b);
    DayNumberWithinMonth(b, a);
  }

  lemma DayNumberWithinMonth(a: NaiveDate, b: NaiveDate)
    ensures MonthIndex(a) < MonthIndex(b) ==> DayNumber(a) < DayNumber(b)
    ensures MonthIndex(a) == MonthIndex(b) <==> a.year == b.year && a.month == b.month
    ensures MonthIndex(a) < MonthIndex(b) <==> a.year < b.year || (a.year == b.year && a.month < b.month)
  {
    assert MonthIndex(a) / 12 == a.year && MonthIndex(a) % 12 == a.month - 1;
    if MonthIndex(a) < MonthIndex(b) {
      MonthStartSpan(MonthIndex(a) + 1, MonthIndex(b));
    }
  }

  lemma MonthOfYear(year: int, month: int)
    requires 1 <= month <= 12
    ensures MonthLength(12 * year + month - 1) == DaysInMonth(year, month)
    ensures MonthStart(12 * year + month) == MonthStart(12 * year + month - 1) + DaysInMonth(year, month)
  {
    assert (12 * year + month - 1) / 12 == year && (12 * year + month - 1) % 12 == month - 1;
  }

  /** Days from 1 January to the first of September, and to the next 1 January. */
  lemma DaysOfYear(year: int)
    ensures var leap := if IsLeap(year) then 1 else 0;
            && MonthStart(12 * year + 8) == MonthStart(12 * year) + 243 + leap
            && MonthStart(12 * (year + 1)) == MonthStart(12 * year) + 365 + leap
  {
    hide MonthStart, MonthLength;
    MonthOfYear(year, 1);
    MonthOfYear(year, 2);
    MonthOfYear(year, 3);
    MonthOfYear(year, 4);
    MonthOfYear(year, 5);
    MonthOfYear(year, 6);
    MonthOfYear(year, 7);
    MonthOfYear(year, 8);
    MonthOfYear(year, 9);
    MonthOfYear(year, 10);
    MonthOfYear(year, 11);
    MonthOfYear(year, 12);
  }

  function LeapDaysBefore(year: int): int {
    (year - 1) / 4 - (year - 1) / 100 + (year - 1) / 400
  }

  lemma QuotientSteps(year: int)
    ensures year / 4 - (year - 1) / 4 == if year % 4 == 0 then 1 else 0
    ensures year / 100 - (year - 1) / 100 == if year % 100 == 0 then 1 else 0
    ensures year / 400 - (year - 1) / 400 == if year % 400 == 0 then 1 else 0
  {
  }

  lemma CenturiesAreMultiples(q: int)
    ensures (400 * q) % 100 == 0 && (100 * q) % 4 == 0
  {
  }

  lemma Multiples(year: int)
    ensures year % 400 == 0 ==> year % 100 == 0
    ensures year % 100 == 0 ==> year % 4 == 0
  {
    if year % 100 == 0 {
      CenturiesAreMultiples(year / 100);
    }
    if year % 400 == 0 {
      CenturiesAreMultiples(year / 400);
    }
  }

  lemma LeapDayCount(year: int)
    ensures LeapDaysBefore(year + 1) - LeapDaysBefore(year) ==
            (if year % 4 == 0 then 1 else 0) - (if year % 100 == 0 then 1 else 0) + (if year % 400 == 0 then 1 else 0)
  {
    QuotientSteps(year);
  }

  lemma LeapDaysStep(year: int)
    ensures LeapDaysBefore(year + 1) == LeapDaysBefore(year) + if IsLeap(year) then 1 else 0
  {
    hide LeapDaysBefore;
    LeapDayCount(year);
    Multiples(year);
  }

  /** The summed month lengths agree with the closed form of the Gregorian year count. */
  lemma {:induction false} YearFormula(year: int)
    ensures MonthStart(12 * year) == 365 * (year - 1) + LeapDaysBefore(year)
    decreases if year >= 1 then year - 1 else 1 - year
  {
    hide LeapDaysBefore, IsLeap;
    if year == 1 {
      assert MonthStart(12) == 0 && LeapDaysBefore(1) == 0 by { NoLeapDaysBeforeYearOne(); }
    } else if year > 1 {
      YearFormula(year - 1);
      DaysOfYear(year - 1);
      LeapDaysStep(year - 1);
    } else {
      YearFormula(year + 1);
      DaysOfYear(year);
      LeapDaysStep(year);
    }
  }

  lemma NoLeapDaysBeforeYearOne()
    ensures LeapDaysBefore(1) == 0
  {
  }

  /** Day numbers put weekdays where the calendar has them: 4 September 2026 is a Friday. */
  lemma WeekdaysAreAligned()
    ensures Weekday(DayNumber(Date(2026, 9, 4))) == 5
  {
    hide MonthStart;
    YearFormula(2026);
    DaysOfYear(2026);
  }

  /** From that Friday on, and back from it, weekdays run through 0 to 6 day by day. */
  lemma WeekdayOfEveryDay(day: int)
    ensures 0 <= Weekday(day) < 7 && Weekday(day + 1) == (Weekday(day) + 1) % 7
    ensures Weekday(day) == (5 + day - DayNumber(Date(2026, 9, 4))) % 7
  {
    hide DayNumber;
    WeekdaysAreAligned();
  }

  /** Every date's day number in closed form: whole years with their leap days, then whole months, then days. */
  lemma DayNumberClosedForm(d: NaiveDate)
    ensures var y, m := d.year, d.month;
            var leap := y % 4 == 0 && (y % 100 != 0 || y % 400 == 0);
            DayNumber(d) ==
            365 * (y - 1) + (y - 1) / 4 - (y - 1) / 100 + (y - 1) / 400
            + (367 * m - 362) / 12 - (if m <= 2 then 0 else if leap then 1 else 2) + d.day
  {
    hide MonthStart, MonthLength, DaysInMonth, IsLeap;
    YearFormula(d.year);
    MonthsOfYear(d.year, d.month);
  }

  lemma {:induction false} MonthsOfYear(year: int, month: int)
    requires 1 <= month <= 12
    ensures MonthStart(12 * year + month - 1) == MonthStart(12 * year) + (367 * month - 362) / 12
            - (if month <= 2 then 0 else if year % 4 == 0 && (year % 100 != 0 || year % 400 == 0) then 1 else 2)
  {
    hide MonthStart, MonthLength;
    if month > 1 {
      MonthsOfYear(year, month - 1);
      MonthOfYear(year, month - 1);
    }
  }

  // ----- month arithmetic -----

  /** The day before `d`. */
  function Pred(d: NaiveDate): NaiveDate {
    if d.day > 1 then d.(day := d.day - 1)
    else if d.month > 1 then Date(d.year, d.month - 1, DaysInMonth(d.year, d.month - 1))
    else Date(d.year - 1, 12, 31)
  }

  lemma PredIsDayBefore(d: NaiveDate)
    ensures DayNumber(Pred(d)) == DayNumber(d) - 1
  {
    if d.day == 1 {
      var i := MonthIndex(d);
      assert MonthIndex(Pred(d)) == i - 1;
      assert (i - 1) / 12 == Pred(d).year && (i - 1) % 12 == Pred(d).month - 1;
    }
  }

  /** Last valid day of a month, found as the day before the first of the next month. */
  function LastDayOfMonth(year: int, month: int): int
    requires 1 <= month <= 12
  {
    var firstOfNext := if month == 12 then Date(year + 1, 1, 1) else Date(year, month + 1, 1);
    Pred(firstOfNext).day
  }

  lemma LastDayOfMonthIsLength(year: int, month: int)
    requires 1 <= month <= 12
    ensures LastDayOfMonth(year, month) == DaysInMonth(year, month) == MonthLength(12 * year + month - 1)
  {
    assert (12 * year + month - 1) / 12 == year && (12 * year + month - 1) % 12 == month - 1;
  }

  function AddMonthsClamped(base: NaiveDate, months: int): NaiveDate {
    var total := base.year * 12 + (base.month - 1) + months;
    var year := total / 12;
    var month := total % 12 + 1;
    LastDayOfMonthIsLength(year, month);
    Date(year, month, Min(base.day, LastDayOfMonth(year, month)))
  }

  /** Months are added exactly and the day is the anchor day, clamped. */
  lemma AddMonthsExact(base: NaiveDate, k: int)
    ensures var r := AddMonthsClamped(base, k);
            && MonthIndex(r) == MonthIndex(base) + k
            && r.day == Min(base.day, MonthLength(MonthIndex(base) + k))
            && DayNumber(r) == MonthStart(MonthIndex(base) + k) + r.day
    ensures AddMonthsClamped(base, 0) == base
  {
    hide MonthStart, LastDayOfMonth, IsLeap;
    var total := MonthIndex(base) + k;
    LastDayOfMonthIsLength(total / 12, total % 12 + 1);
    assert MonthIndex(base) / 12 == base.year && MonthIndex(base) % 12 == base.month - 1;
    LastDayOfMonthIsLength(base.year, base.month);
  }

  /** Consecutive occurrences of one anchor are 28 to 31 days apart. */
  lemma OccurrenceGap(base: NaiveDate, k: int)
    ensures 28 <= DayNumber(AddMonthsClamped(base, k + 1)) - DayNumber(AddMonthsClamped(base, k)) <= 31
  {
    hide AddMonthsClamped, MonthLength;
    AddMonthsExact(base, k);
    AddMonthsExact(base, k + 1);
    var l0, l1 := MonthLength(MonthIndex(base) + k), MonthLength(MonthIndex(base) + k + 1);
    assert 28 <= l0 - Min(base.day, l0) + Min(base.day, l1) <= 31;
  }

  /** Strict monotonicity in the number of months, with its rate. */
  lemma {:induction false} OccurrencesSpread(base: NaiveDate, j: int, k: int)
    requires j <= k
    ensures var span := DayNumber(AddMonthsClamped(base, k)) - DayNumber(AddMonthsClamped(base, j));
            28 * (k - j) <= span <= 31 * (k - j)
    decreases k - j
  {
    hide AddMonthsClamped, DayNumber;
    if j < k {
      OccurrencesSpread(base, j, k - 1);
      OccurrenceGap(base, k - 1);
    }
  }

  /** Weak monotonicity in the base date. */
  lemma AddMonthsMonotoneInBase(a: NaiveDate, b: NaiveDate, k: int)
    requires DayNumber(a) <= DayNumber(b)
    ensures DayNumber(AddMonthsClamped(a, k)) <= DayNumber(AddMonthsClamped(b, k))
  {
    AddMonthsExact(a, k);
    AddMonthsExact(b, k);
    OrderIsDayNumber(b, a);
    DayNumberWithinMonth(a, b);
    DayNumberWithinMonth(AddMonthsClamped(a, k), AddMonthsClamped(b, k));
  }

  /**
   Stepping twice never overtakes stepping once, and it falls behind exactly
   when the intermediate month is too short to hold the day finally reached.
   */
  lemma TwoStepAddition(base: NaiveDate, j: int, k: int)
    ensures var twice := AddMonthsClamped(AddMonthsClamped(base, j), k);
            var once := AddMonthsClamped(base, j + k);
            && DayNumber(twice) <= DayNumber(once)
            && (twice == once <==> once.day <= MonthLength(MonthIndex(base) + j))
            && (base.day <= 28 ==> twice == once)
  {
    hide AddMonthsClamped, MonthStart, MonthLength;
    var mid := AddMonthsClamped(base, j);
    AddMonthsExact(base, j);
    AddMonthsExact(mid, k);
    AddMonthsExact(base, j + k);
    OrderIsDayNumber(AddMonthsClamped(mid, k), AddMonthsClamped(base, j + k));
  }

  // ----- advancing a billing date -----

  /** Bound of the catch-up search, in months. */
  const MAX_CATCH_UP_MONTHS := 1200

  /**
   Closed form of the catch-up search: how many whole months from `stored` to
   its first occurrence after `threshold`.
   */
  function CycleSteps(stored: NaiveDate, threshold: NaiveDate): int {
    var diff := MonthIndex(threshold) - MonthIndex(stored);
    if Before(threshold, AddMonthsClamped(stored, diff)) then diff else diff + 1
  }

  /** The next billing date after a payment on `pay`. */
  function NextBilling(stored: Option<NaiveDate>, pay: NaiveDate): NaiveDate {
    match stored
    case None => AddMonthsClamped(pay, 1)
    case Some(due) =>
      var k := CycleSteps(due, Later(pay, due));
      AddMonthsClamped(if k <= MAX_CATCH_UP_MONTHS then due else pay,
                       if k <= MAX_CATCH_UP_MONTHS then k else 1)
  }

  /** `CycleSteps` is the least step past the threshold, over all steps. */
  lemma CycleStepsIsLeast(stored: NaiveDate, threshold: NaiveDate)
    requires DayNumber(stored) <= DayNumber(threshold)
    ensures var k := CycleSteps(stored, threshold);
            && 1 <= k
            && DayNumber(AddMonthsClamped(stored, k - 1)) <= DayNumber(threshold)
            && forall j :: j >= k <==> DayNumber(AddMonthsClamped(stored, j)) > DayNumber(threshold)
  {
    hide MonthStart, MonthLength, AddMonthsClamped;
    var diff := MonthIndex(threshold) - MonthIndex(stored);
    var k := CycleSteps(stored, threshold);
    OrderIsDayNumber(threshold, stored);
    DayNumberWithinMonth(threshold, stored);
    AddMonthsExact(stored, diff);
    AddMonthsExact(stored, diff - 1);
    AddMonthsExact(stored, diff + 1);
    DayNumberWithinMonth(AddMonthsClamped(stored, diff - 1), threshold);
    DayNumberWithinMonth(threshold, AddMonthsClamped(stored, diff + 1));
    OrderIsDayNumber(threshold, AddMonthsClamped(stored, diff));
    forall j ensures j >= k <==> DayNumber(AddMonthsClamped(stored, j)) > DayNumber(threshold) {
      if j >= k { OccurrencesSpread(stored, k, j); } else { OccurrencesSpread(stored, j, k - 1); }
    }
  }

  /** The bounded linear search computes the closed form. */
  method AdvanceNextBilling(stored: Option<NaiveDate>, pay: NaiveDate) returns (next: NaiveDate)
    ensures next == NextBilling(stored, pay)
  {
    if stored.None? {
      return AddMonthsClamped(pay, 1);
    }
    var due := stored.value;
    var threshold := Later(pay, due);
    OrderIsDayNumber(pay, due);
    CycleStepsIsLeast(due, threshold);
    for k := 1 to MAX_CATCH_UP_MONTHS + 1
      invariant k <= CycleSteps(due, threshold)
    {
      var candidate := AddMonthsClamped(due, k);
      OrderIsDayNumber(threshold, candidate);
      if Before(threshold, candidate) {
        return candidate;
      }
    }
    next := AddMonthsClamped(pay, 1);
  }

  /** An advance always lands 1 to 31 days past both the payment and the old due date. */
  lemma NextBillingIsSoonAfter(stored: Option<NaiveDate>, pay: NaiveDate)
    ensures var threshold := if stored.Some? then Later(pay, stored.value) else pay;
            && DayNumber(pay) <= DayNumber(threshold)
            && (stored.Some? ==> DayNumber(stored.value) <= DayNumber(threshold))
            && DayNumber(threshold) < DayNumber(NextBilling(stored, pay)) <= DayNumber(threshold) + 31
  {
    hide DayNumber, AddMonthsClamped, CycleSteps;
    AddMonthsExact(pay, 0);
    OccurrenceGap(pay, 0);
    if stored.Some? {
      var due := stored.value;
      OrderIsDayNumber(pay, due);
      CycleStepsIsLeast(due, Later(pay, due));
      OccurrenceGap(due, CycleSteps(due, Later(pay, due)) - 1);
      FallbackExactly(due, pay);
    }
  }

  /**
   The fallback is taken exactly when 1200 months do not get past the
   threshold, which then is the payment date; otherwise the result is the
   least occurrence past the threshold.
   */
  lemma FallbackExactly(due: NaiveDate, pay: NaiveDate)
    ensures var threshold := DayNumber(Later(pay, due));
            var next := NextBilling(Some(due), pay);
            if DayNumber(AddMonthsClamped(due, 1200)) <= threshold
            then next == AddMonthsClamped(pay, 1) && Later(pay, due) == pay
            else exists k :: 1 <= k <= 1200 && next == AddMonthsClamped(due, k) &&
                             DayNumber(next) > threshold &&
                             forall j :: j < k ==> DayNumber(AddMonthsClamped(due, j)) <= threshold
  {
    OrderIsDayNumber(pay, due);
    CycleStepsIsLeast(due, Later(pay, due));
    AddMonthsExact(due, 0);
    OccurrencesSpread(due, 0, MAX_CATCH_UP_MONTHS);
  }

  /** The first advance is the pay's day of the next month, or that month's last day. */
  lemma FirstBilling(pay: NaiveDate)
    ensures var next := NextBilling(None, pay);
            && MonthIndex(next) == MonthIndex(pay) + 1
            && next.day == Min(pay.day, DaysInMonth(next.year, next.month))
  {
    hide MonthStart, AddMonthsClamped, DaysInMonth;
    AddMonthsExact(pay, 1);
    var next := NextBilling(None, pay);
    assert MonthIndex(next) / 12 == next.year && MonthIndex(next) % 12 == next.month - 1;
  }

  /** An advance moves the due date by at least 28 days. */
  lemma NextBillingLeaps(due: NaiveDate, pay: NaiveDate)
    ensures DayNumber(NextBilling(Some(due), pay)) >= DayNumber(due) + 28
  {
    hide DayNumber, AddMonthsClamped, CycleSteps;
    FallbackExactly(due, pay);
    AddMonthsExact(due, 0);
    AddMonthsExact(pay, 0);
    OccurrenceGap(pay, 0);
    OrderIsDayNumber(pay, due);
    CycleStepsIsLeast(due, Later(pay, due));
    var k := CycleSteps(due, Later(pay, due));
    OccurrencesSpread(due, 0, k);
  }

  /** The due date after a sequence of payments, oldest first. */
  function DueAfter(due: NaiveDate, pays: seq<NaiveDate>): NaiveDate {
    if pays == [] then due else NextBilling(Some(DueAfter(due, pays[..|pays| - 1])), pays[|pays| - 1])
  }

  /** No payment of the sequence needed the 1200-month fallback. */
  predicate NoFallback(due: NaiveDate, pays: seq<NaiveDate>) {
    pays != [] ==>
      var before := DueAfter(due, pays[..|pays| - 1]);
      && NoFallback(due, pays[..|pays| - 1])
      && CycleSteps(before, Later(pays[|pays| - 1], before)) <= MAX_CATCH_UP_MONTHS
  }

  /** Month-end clamping can only pull the due day down, and never below 28. */
  lemma {:induction false} DueDayDrift(due: NaiveDate, pays: seq<NaiveDate>)
    requires NoFallback(due, pays)
    ensures Min(due.day, 28) <= DueAfter(due, pays).day <= due.day
    ensures pays != [] ==> DueAfter(due, pays).day <= DueAfter(due, pays[..|pays| - 1]).day
  {
    if pays != [] {
      DueDayDrift(due, pays[..|pays| - 1]);
      var before := DueAfter(due, pays[..|pays| - 1]);
      AddMonthsExact(before, CycleSteps(before, Later(pays[|pays| - 1], before)));
    }
  }
}
