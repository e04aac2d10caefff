/**
 The proleptic Gregorian calendar in UTC. An instant is a number of seconds since the start of year 0; a month is
 numbered `12 * year + (month - 1)`.
 */
module Calendar {

  const DAY := 86400

  predicate IsLeap(year: int) {
    year % 4 == 0 && (year % 100 != 0 || year % 400 == 0)
  }

  function DaysIn(year: int, month: int): int {
    if month == 2 then (if IsLeap(year) then 29 else 28)
    else if month in {4, 6, 9, 11} then 30
    else 31
  }

  function DaysBeforeYear(year: int): int {
    365 * year + (year + 3) / 4 - (year + 99) / 100 + (year + 399) / 400
  }

  function DaysBeforeMonth(year: int, month: nat): int {
    if month <= 1 then 0 else DaysBeforeMonth(year, month - 1) + DaysIn(year, month - 1)
  }

  /** The first instant of month `k`; any `k` is meant, so months past the year's end carry over. */
  function StartOf(k: int): int {
    (DaysBeforeYear(k / 12) + DaysBeforeMonth(k / 12, k % 12 + 1)) * DAY
  }

  lemma YearLength(year: int)
    ensures DaysBeforeYear(year + 1) == DaysBeforeYear(year) + if IsLeap(year) then 366 else 365
  {
    assert (year + 4) / 4 == (year + 3) / 4 + if year % 4 == 0 then 1 else 0;
    assert (year + 100) / 100 == (year + 99) / 100 + if year % 100 == 0 then 1 else 0;
    assert (year + 400) / 400 == (year + 399) / 400 + if year % 400 == 0 then 1 else 0;
  }

  lemma ProductStep(q: int, q': int, n: nat)
    requires q < q'
    ensures q * n + n <= q' * n
  {
    assert (q' - q) * n == (q' - q - 1) * n + n;
  }

  lemma DivisionUnique(a: int, n: nat, q: int, r: int)
    requires n > 0 && a == q * n + r && 0 <= r < n
    ensures a / n == q && a % n == r
  {
    var q' := a / n;
    assert a == q' * n + a % n;
    if q < q' {
      ProductStep(q, q', n);
    } else if q' < q {
      ProductStep(q', q, n);
    }
  }

  lemma MonthLength(k: int)
    ensures StartOf(k + 1) == StartOf(k) + DaysIn(k / 12, k % 12 + 1) * DAY
  {
    var y, m := k / 12, k % 12;
    if m < 11 {
      DivisionUnique(k + 1, 12, y, m + 1);
    } else {
      DivisionUnique(k + 1, 12, y + 1, 0);
      YearLength(y);
      assert DaysBeforeMonth(y, 12) + DaysIn(y, 12) == if IsLeap(y) then 366 else 365 by { YearDays(y); }
    }
  }

  lemma YearDays(y: int)
    ensures DaysBeforeMonth(y, 12) + DaysIn(y, 12) == if IsLeap(y) then 366 else 365
  {
    var feb := if IsLeap(y) then 29 else 28;
    assert DaysBeforeMonth(y, 2) == 31;
    assert DaysBeforeMonth(y, 3) == 31 + feb;
    assert DaysBeforeMonth(y, 4) == 62 + feb;
    assert DaysBeforeMonth(y, 5) == 92 + feb;
    assert DaysBeforeMonth(y, 6) == 123 + feb;
    assert DaysBeforeMonth(y, 7) == 153 + feb;
    assert DaysBeforeMonth(y, 8) == 184 + feb;
    assert DaysBeforeMonth(y, 9) == 215 + feb;
    assert DaysBeforeMonth(y, 10) == 245 + feb;
    assert DaysBeforeMonth(y, 11) == 276 + feb;
  }

  /** Month by month, with the Gregorian leap years, also across year ends. */
  lemma MonthsAre(k: int)
    ensures var y, m := k / 12, k % 12 + 1;
            StartOf(k + 1) == StartOf(k) + 86400 *
              if m == 2 then (if (y % 4 == 0 && y % 100 != 0) || y % 400 == 0 then 29 else 28)
              else if m == 4 || m == 6 || m == 9 || m == 11 then 30 else 31
  {
    hide StartOf;
    MonthLength(k);
  }

  lemma YearStart(year: int)
    ensures StartOf(12 * year) == DaysBeforeYear(year) * DAY
  {
    DivisionUnique(12 * year, 12, year, 0);
  }

  /** Instants are counted from the start of year 0, and 1970 starts 719528 days later. */
  lemma Origin(year: int)
    ensures year == 0 ==> StartOf(12 * year) == 0
    ensures year == 1970 ==> StartOf(12 * year) == 719528 * 86400
  {
    hide StartOf;
    YearStart(year);
  }

  lemma {:induction false} MonthsIncrease(j: int, k: int)
    requires j < k
    ensures StartOf(j) + 28 * DAY <= StartOf(k)
    decreases k - j
  {
    MonthLength(k - 1);
    if j < k - 1 { MonthsIncrease(j, k - 1); }
  }

  lemma MonthsOrdered(j: int, k: int)
    ensures j <= k <==> StartOf(j) <= StartOf(k)
    ensures j < k <==> StartOf(j) < StartOf(k)
  {
    if j < k { MonthsIncrease(j, k); }
    if k < j { MonthsIncrease(k, j); }
  }

  lemma MonthIsPositive(k: int)
    ensures StartOf(k) < StartOf(k + 1)
  {
    MonthLength(k);
  }

  function MonthFrom(t: int, k: int): (m: int)
    ensures StartOf(m) <= t < StartOf(m + 1)
    decreases t < StartOf(k), if t < StartOf(k) then StartOf(k) - t else t - StartOf(k)
  {
    hide StartOf;
    MonthIsPositive(k - 1);
    MonthIsPositive(k);
    if t < StartOf(k) then MonthFrom(t, k - 1)
    else if t >= StartOf(k + 1) then MonthFrom(t, k + 1)
    else k
  }

  /** The month an instant falls in. */
  function MonthOf(t: int): (m: int)
    ensures StartOf(m) <= t < StartOf(m + 1)
  {
    MonthFrom(t, 0)
  }

  lemma MonthOfUnique(t: int, k: int)
    requires StartOf(k) <= t < StartOf(k + 1)
    ensures MonthOf(t) == k
  {
    MonthsOrdered(k, MonthOf(t));
    MonthsOrdered(MonthOf(t) + 1, k);
    MonthsOrdered(k + 1, MonthOf(t));
  }

  /** Adding years, months and days to a date; days past the month's end run on into the next. */
  function AddDate(t: int, years: int, months: int, days: int): int {
    StartOf(MonthOf(t) + 12 * years + months) + (t - StartOf(MonthOf(t))) + days * DAY
  }

  lemma AddDateToFirst(k: int, years: int, months: int)
    ensures AddDate(StartOf(k), years, months, 0) == StartOf(k + 12 * years + months)
  {
    MonthLength(k);
    MonthOfUnique(StartOf(k), k);
  }

  /** In the first 28 days of a month, the date moves by whole months and then by whole days. */
  lemma AddDateIs(k: int, s: int, years: int, months: int, days: int)
    requires 0 <= s < 28 * 86400
    ensures AddDate(StartOf(k) + s, years, months, days) == StartOf(k + 12 * years + months) + s + days * 86400
  {
    MonthsIncrease(k, k + 1);
    MonthOfUnique(StartOf(k) + s, k);
  }

  function StartOfNextMonth(t: int): int {
    StartOf(MonthOf(t) + 1)
  }

  // ---- reporting windows ----

  datatype Period = AllTime | Month | Quarter | Year

  /** Half-open: `start` is in, `end` is not. */
  datatype Window = Window(start: int, end: int)

  predicate Within(w: Window, t: int) {
    w.start <= t < w.end
  }

  function MonthsIn(p: Period): int {
    match p
    case Quarter => 3
    case Year => 12
    case _ => 1
  }

  /** The current window and the same one a year earlier, computed from the date of `now`. */
  function PeriodWindows(p: Period, now: int): (Window, Window)
    requires !p.AllTime?
  {
    var y, m := MonthOf(now) / 12, MonthOf(now) % 12;
    match p
    case Month =>
      var start := StartOf(12 * y + m);
      var cur := Window(start, AddDate(start, 0, 1, 0));
      (cur, Window(AddDate(start, -1, 0, 0), AddDate(cur.end, -1, 0, 0)))
    case Quarter =>
      var q := m / 3;
      var start := StartOf(12 * y + q * 3);
      var cur := Window(start, AddDate(start, 0, 3, 0));
      (cur, Window(AddDate(start, -1, 0, 0), AddDate(cur.end, -1, 0, 0)))
    case Year =>
      var start := StartOf(12 * y);
      (Window(start, AddDate(start, 1, 0, 0)), Window(AddDate(start, -1, 0, 0), start))
  }

  /** The first month of the period that month `k` belongs to. */
  function FirstMonth(p: Period, k: int): int {
    k - k % MonthsIn(p)
  }

  lemma FirstMonthForms(k: int)
    ensures FirstMonth(Quarter, k) == 12 * (k / 12) + (k % 12) / 3 * 3
    ensures FirstMonth(Year, k) == 12 * (k / 12)
  {
    var y, m := k / 12, k % 12;
    assert m == 3 * (m / 3) + m % 3;
    DivisionUnique(k, 3, 4 * y + m / 3, m % 3);
  }

  lemma WindowsInMonths(p: Period, now: int)
    requires !p.AllTime?
    ensures var f, n := FirstMonth(p, MonthOf(now)), MonthsIn(p);
            PeriodWindows(p, now) ==
            (Window(StartOf(f), StartOf(f + n)), Window(StartOf(f - 12), StartOf(f - 12 + n)))
  {
    hide StartOf, MonthOf;
    var k := MonthOf(now);
    var f, n := FirstMonth(p, k), MonthsIn(p);
    FirstMonthForms(k);
    AddDateToFirst(f, 0, n);
    AddDateToFirst(f, 1, 0);
    AddDateToFirst(f, -1, 0);
    AddDateToFirst(f + n, -1, 0);
  }

  /** The windows are whole months: the one, three or twelve that start at a multiple, and the same a year earlier. */
  lemma WindowsAreMonths(p: Period, now: int)
    requires !p.AllTime?
    ensures var n := if p.Month? then 1 else if p.Quarter? then 3 else 12;
            exists first :: first % n == 0 && StartOf(first) <= now < StartOf(first + n)
              && PeriodWindows(p, now) == (Window(StartOf(first), StartOf(first + n)),
                                           Window(StartOf(first - 12), StartOf(first - 12 + n)))
  {
    hide StartOf, MonthOf, PeriodWindows;
    var k := MonthOf(now);
    var first := FirstMonth(p, k);
    WindowsInMonths(p, now);
    MonthsOrdered(first, k);
    MonthsOrdered(k + 1, first + MonthsIn(p));
    FirstMonthAligned(p, k, k);
  }

  /** The prior window is itself a window of the period, twelve months back. */
  lemma PriorIsAWindow(p: Period, now: int)
    requires !p.AllTime?
    ensures var (cur, prior) := PeriodWindows(p, now);
            && prior == PeriodWindows(p, prior.start).0
            && prior.start == AddDate(cur.start, -1, 0, 0) && prior.end == AddDate(cur.end, -1, 0, 0)
  {
    hide StartOf, MonthOf, PeriodWindows;
    var f, n := FirstMonth(p, MonthOf(now)), MonthsIn(p);
    WindowsInMonths(p, now);
    MonthLength(f - 12);
    MonthOfUnique(StartOf(f - 12), f - 12);
    WindowsInMonths(p, StartOf(f - 12));
    FirstMonthAligned(p, MonthOf(now), f - 12);
    AddDateToFirst(f, -1, 0);
    AddDateToFirst(f + n, -1, 0);
  }

  /** The current window contains `now`; the prior one is the same months a year earlier and ends before the current starts. */
  lemma WindowsAreRight(p: Period, now: int)
    requires !p.AllTime?
    ensures var (cur, prior) := PeriodWindows(p, now);
            && Within(cur, now)
            && prior == PeriodWindows(p, prior.start).0
            && prior.start == AddDate(cur.start, -1, 0, 0) && prior.end == AddDate(cur.end, -1, 0, 0)
            && prior.start < prior.end <= cur.start < cur.end
  {
    hide StartOf, MonthOf, PeriodWindows;
    var k := MonthOf(now);
    var f, n := FirstMonth(p, k), MonthsIn(p);
    WindowsInMonths(p, now);
    PriorIsAWindow(p, now);
    MonthsOrdered(f, k);
    MonthsOrdered(k + 1, f + n);
    MonthsOrdered(f - 12, f - 12 + n);
    MonthsOrdered(f - 12 + n, f);
    MonthsOrdered(f, f + n);
  }

  /** Windows of one period tile the time line: instants share a window or have disjoint ones, and each ends where the next starts. */
  lemma WindowsTile(p: Period, s: int, t: int)
    requires !p.AllTime?
    ensures var a, b := PeriodWindows(p, s).0, PeriodWindows(p, t).0;
            && (a == b <==> Within(a, t))
            && (a != b ==> a.end <= b.start || b.end <= a.start)
            && PeriodWindows(p, a.end).0.start == a.end
  {
    hide StartOf, MonthOf;
    var j, k, n := MonthOf(s), MonthOf(t), MonthsIn(p);
    var f, g := FirstMonth(p, j), FirstMonth(p, k);
    WindowsInMonths(p, s);
    WindowsInMonths(p, t);
    WindowsAreRight(p, t);
    FirstMonthAligned(p, j, k);
    MonthsOrdered(f, g);
    MonthsOrdered(f + n, g);
    MonthsOrdered(g + n, f);
    MonthLength(f + n);
    MonthOfUnique(StartOf(f + n), f + n);
    WindowsInMonths(p, StartOf(f + n));
    FirstMonthAligned(p, j, f + n);
  }

  /** First months are multiples of the period's length: two of them are equal or at least a period apart. */
  lemma FirstMonthAligned(p: Period, j: int, k: int)
    ensures var f, g, n := FirstMonth(p, j), FirstMonth(p, k), MonthsIn(p);
            && (f == g || f + n <= g || g + n <= f)
            && FirstMonth(p, f + n) == f + n && FirstMonth(p, f - 12) == f - 12
  {
    var n := MonthsIn(p);
    var a, b := j / n, k / n;
    assert FirstMonth(p, j) == a * n && FirstMonth(p, k) == b * n;
    if a < b { ProductStep(a, b, n); }
    if b < a { ProductStep(b, a, n); }
    DivisionUnique(a * n + n, n, a + 1, 0);
    DivisionUnique(a * n - 12, n, a - 12 / n, 0);
  }
}
