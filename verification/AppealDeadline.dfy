/** The last moment a decision can be appealed: six months later, on the dates of ECMA-262 (edition
    5.1, section 15.9.1). */
module AppealDeadline {

  const MS_PER_DAY: int := 86400000
  const APPEAL_WINDOW_MONTHS: int := 6

  // ---- years ----

  predicate Leap(y: int) {
    y % 4 == 0 && (y % 100 != 0 || y % 400 == 0)
  }

  function DaysInYear(y: int): int {
    if Leap(y) then 366 else 365
  }

  /** Section 15.9.1.3. */
  function DayFromYear(y: int): int {
    365 * (y - 1970) + (y - 1969) / 4 - (y - 1901) / 100 + (y - 1601) / 400
  }

  /** Dividing the next number: one more exactly at a multiple. */
  lemma NextQuotient(x: int, n: int)
    requires n > 0
    ensures (x + 1) / n == x / n + if (x + 1) % n == 0 then 1 else 0
  {
    var q, r := (x + 1) / n, (x + 1) % n;
    assert x + 1 == n * q + r;
    if r == 0 {
      assert x == n * (q - 1) + (n - 1);
      QuotientIs(x, n, q - 1, n - 1);
    } else {
      QuotientIs(x, n, q, r - 1);
    }
  }

  lemma QuotientIs(x: int, n: int, q: int, r: int)
    requires n > 0 && x == n * q + r && 0 <= r < n
    ensures x / n == q && x % n == r
  {
    var d := x / n - q;
    assert n * d == r - x % n;
    assert d >= 1 ==> n * d >= n;
    assert d <= -1 ==> n * d <= -n;
  }

  lemma YearLength(y: int)
    ensures DayFromYear(y + 1) == DayFromYear(y) + DaysInYear(y)
  {
    NextQuotient(y - 1969, 4);
    NextQuotient(y - 1901, 100);
    NextQuotient(y - 1601, 400);
  }

  lemma {:induction false} YearsRise(y: int, z: int)
    requires y <= z
    ensures DayFromYear(z) >= DayFromYear(y) + 365 * (z - y)
    decreases z - y
  {
    if y < z {
      YearsRise(y, z - 1);
      YearLength(z - 1);
    }
  }

  /** Section 15.9.1.3: the largest year that starts no later, searched for from `y`. */
  function YearFrom(day: int, y: int): (r: int)
    ensures DayFromYear(r) <= day < DayFromYear(r + 1)
    decreases if DayFromYear(y) > day then DayFromYear(y) - day else 0,
              if DayFromYear(y) <= day then day - DayFromYear(y) else 0
  {
    YearLength(y);
    YearLength(y - 1);
    if DayFromYear(y) > day then YearFrom(day, y - 1)
    else if DayFromYear(y + 1) <= day then YearFrom(day, y + 1)
    else y
  }

  function YearOf(day: int): int {
    YearFrom(day, 1970)
  }

  lemma YearIs(day: int, y: int)
    requires DayFromYear(y) <= day < DayFromYear(y + 1)
    ensures YearOf(day) == y
  {
    var r := YearOf(day);
    if r < y { YearsRise(r + 1, y); }
    if y < r { YearsRise(y + 1, r); }
  }

  // ---- months ----

  /** The days of the year before a month. */
  function DaysBefore(y: int, m: int): int
    requires 0 <= m <= 12
  {
    var leap := if Leap(y) then 1 else 0;
    if m == 0 then 0 else if m == 1 then 31 else leap + [59, 90, 120, 151, 181, 212, 243, 273, 304, 334, 365][m - 2]
  }

  function DaysIn(y: int, m: int): int
    requires 0 <= m < 12
  {
    DaysBefore(y, m + 1) - DaysBefore(y, m)
  }

  /** A date: a month from 0, a day of the month from 1. */
  datatype Date = Date(year: int, month: int, day: int) {
    predicate Valid() {
      0 <= month < 12 && 1 <= day <= DaysIn(year, month)
    }
  }

  /** Section 15.9.1.4 and 15.9.1.5. */
  function MonthIn(y: int, d: int, m: int): (r: int)
    requires 0 <= m < 12 && DaysBefore(y, m) <= d < DaysInYear(y)
    ensures m <= r < 12 && DaysBefore(y, r) <= d < DaysBefore(y, r + 1)
    decreases 12 - m
  {
    if d < DaysBefore(y, m + 1) then m else MonthIn(y, d, m + 1)
  }

  function DateOf(day: int): (d: Date)
    ensures d.Valid()
  {
    var y := YearOf(day);
    YearLength(y);
    var inYear := day - DayFromYear(y);
    var m := MonthIn(y, inYear, 0);
    Date(y, m, inYear - DaysBefore(y, m) + 1)
  }

  /** Months counted through the years: the year and the month of the k-th. */
  function YearAt(k: int): int {
    k / 12
  }

  function MonthAt(k: int): (m: int)
    ensures 0 <= m < 12
  {
    k % 12
  }

  lemma MonthCount(k: int)
    ensures 12 * YearAt(k) + MonthAt(k) == k
  {
  }

  lemma CountIs(y: int, m: int)
    ensures YearAt(12 * y + m) == y + YearAt(m) && MonthAt(12 * y + m) == MonthAt(m)
    ensures 0 <= m < 12 ==> YearAt(m) == 0 && MonthAt(m) == m
  {
    QuotientIs(12 * y + m, 12, y + m / 12, m % 12);
  }

  /** Section 15.9.1.12: a month may lie outside the year and a date outside the month. */
  function MakeDay(year: int, month: int, date: int): int {
    DayFromYear(year + YearAt(month)) + DaysBefore(year + YearAt(month), MonthAt(month)) + date - 1
  }

  function DayOf(d: Date): int
    requires d.Valid()
  {
    MakeDay(d.year, d.month, d.day)
  }

  lemma {:induction false} MonthsRise(y: int, m: int, n: int)
    requires 0 <= m <= n <= 12
    ensures DaysBefore(y, m) + 28 * (n - m) <= DaysBefore(y, n) && (n < 12 ==> 28 <= DaysIn(y, n) <= 31)
    decreases n - m
  {
    if m < n { MonthsRise(y, m, n - 1); }
  }

  lemma YearEnds(y: int)
    ensures DaysBefore(y, 0) == 0 && DaysBefore(y, 12) == DaysInYear(y)
    ensures DayFromYear(y + 1) == DayFromYear(y) + DaysInYear(y)
  {
    YearLength(y);
  }

  lemma DayOfIs(d: Date)
    requires d.Valid()
    ensures DayOf(d) == DayFromYear(d.year) + DaysBefore(d.year, d.month) + d.day - 1
  {
  }

  lemma YearOfDay(d: Date)
    requires d.Valid()
    ensures YearOf(DayOf(d)) == d.year
  {
    DayOfIs(d);
    YearEnds(d.year);
    MonthsRise(d.year, 0, d.month);
    MonthsRise(d.year, d.month + 1, 12);
    hide DayFromYear, DaysBefore, DayOf, DaysInYear, YearOf;
    YearIs(DayOf(d), d.year);
  }

  lemma MonthIs(y: int, d: int, m: int)
    requires 0 <= m < 12 && 0 <= d < DaysInYear(y) && DaysBefore(y, m) <= d < DaysBefore(y, m + 1)
    ensures MonthIn(y, d, 0) == m
  {
    var r := MonthIn(y, d, 0);
    hide DaysBefore, DaysInYear, MonthIn;
    if r < m { MonthsRise(y, r + 1, m); }
    if m < r { MonthsRise(y, m + 1, r); }
  }

  lemma DateOfDay(d: Date)
    requires d.Valid()
    ensures DateOf(DayOf(d)) == d
  {
    var day := DayOf(d);
    DayOfIs(d);
    YearOfDay(d);
    YearEnds(d.year);
    MonthsRise(d.year, 0, d.month);
    MonthsRise(d.year, d.month + 1, 12);
    hide DayFromYear, DaysBefore, DayOf, DaysInYear, YearOf, MonthIn;
    MonthIs(d.year, day - DayFromYear(d.year), d.month);
  }

  /** Days and dates are the same thing. */
  lemma DatesAreDays(day: int, d: Date)
    requires d.Valid()
    ensures DateOf(day) == d <==> DayOf(d) == day
  {
    DateOfDay(d);
    DayOfDate(day);
  }

  lemma DayOfDate(day: int)
    ensures DayOf(DateOf(day)) == day
  {
    DayOfIs(DateOf(day));
  }

  // ---- dates in order ----

  /** Months counted through the years. */
  function MonthIndex(d: Date): int {
    12 * d.year + d.month
  }

  function MonthStart(k: int): int {
    DayFromYear(YearAt(k)) + DaysBefore(YearAt(k), MonthAt(k))
  }

  function MonthDays(k: int): int {
    DaysIn(YearAt(k), MonthAt(k))
  }

  lemma NextMonth(k: int)
    ensures YearAt(k + 1) == (if MonthAt(k) < 11 then YearAt(k) else YearAt(k) + 1)
    ensures MonthAt(k + 1) == (if MonthAt(k) < 11 then MonthAt(k) + 1 else 0)
  {
  }

  lemma MonthEnds(y: int, m: int)
    requires 0 <= m < 12
    ensures DayFromYear(y) + DaysBefore(y, m) + DaysIn(y, m) ==
      if m < 11 then DayFromYear(y) + DaysBefore(y, m + 1) else DayFromYear(y + 1) + DaysBefore(y + 1, 0)
  {
    YearEnds(y);
    YearEnds(y + 1);
    hide DayFromYear, DaysBefore, DaysInYear, Leap;
  }

  lemma MonthStartNext(k: int)
    ensures MonthStart(k + 1) == MonthStart(k) + MonthDays(k) && 28 <= MonthDays(k) <= 31
  {
    MonthsRise(YearAt(k), MonthAt(k), MonthAt(k));
    MonthEnds(YearAt(k), MonthAt(k));
    NextMonth(k);
    hide DayFromYear, DaysBefore, YearAt, MonthAt;
  }

  lemma {:induction false} MonthStartsRise(k: int, l: int)
    requires k <= l
    ensures MonthStart(l) >= MonthStart(k) + 28 * (l - k)
    decreases l - k
  {
    hide MonthStart, MonthDays;
    if k < l {
      MonthStartsRise(k, l - 1);
      MonthStartNext(l - 1);
    }
  }

  lemma MakeDayInMonths(y: int, m: int, d: int)
    ensures MakeDay(y, m, d) == MonthStart(12 * y + m) + d - 1
  {
    CountIs(y, m);
    hide DayFromYear, DaysBefore, YearAt, MonthAt;
  }

  lemma DateInMonth(k: int, d: int)
    requires 1 <= d <= MonthDays(k)
    ensures DateOf(MonthStart(k) + d - 1) == Date(YearAt(k), MonthAt(k), d)
  {
    var date := Date(YearAt(k), MonthAt(k), d);
    MakeDayInMonths(YearAt(k), MonthAt(k), d);
    MonthCount(k);
    hide DayFromYear, DaysBefore, MonthStart, MakeDay, DateOf, YearAt, MonthAt;
    DateOfDay(date);
  }

  lemma DayInMonths(d: Date)
    requires d.Valid()
    ensures DayOf(d) == MonthStart(MonthIndex(d)) + d.day - 1
    ensures 1 <= d.day <= MonthDays(MonthIndex(d))
  {
    MakeDayInMonths(d.year, d.month, d.day);
    CountIs(d.year, d.month);
    hide DayFromYear, DaysBefore, MonthStart, MakeDay, YearAt, MonthAt;
  }

  // ---- the deadline ----

  function Min(a: int, b: int): int {
    if a < b then a else b
  }

  /** The same day six months later, or the last of that month when it is shorter. */
  function SixMonthsOn(d: Date): Date {
    var k := MonthIndex(d) + APPEAL_WINDOW_MONTHS;
    Date(YearAt(k), MonthAt(k), Min(d.day, MonthDays(k)))
  }

  lemma SixMonthsOnIs(d: Date)
    requires d.Valid()
    ensures SixMonthsOn(d).Valid()
    ensures var k := MonthIndex(d) + APPEAL_WINDOW_MONTHS;
      DayOf(SixMonthsOn(d)) == MonthStart(k) + Min(d.day, MonthDays(k)) - 1
  {
    hide DayFromYear, DaysBefore, DaysIn, MonthStart, MonthDays, MakeDay, DateOf, DayOf, YearAt, MonthAt, Date.Valid;
    var k := MonthIndex(d) + APPEAL_WINDOW_MONTHS;
    MonthStartNext(k);
    DayInMonths(d);
    DateInMonth(k, Min(d.day, MonthDays(k)));
    DayOfDate(MonthStart(k) + Min(d.day, MonthDays(k)) - 1);
  }

  function Day(t: int): int {
    t / MS_PER_DAY
  }

  function TimeWithinDay(t: int): (r: int)
    ensures 0 <= r < MS_PER_DAY && Day(t) * MS_PER_DAY + r == t
  {
    t % MS_PER_DAY
  }

  function MakeDate(day: int, time: int): int {
    day * MS_PER_DAY + time
  }

  function DeadlineDay(day: int): int {
    SixMonthsOnIs(DateOf(day));
    DayOf(SixMonthsOn(DateOf(day)))
  }

  /** The date six months later at the same time of day. */
  function Deadline(t: int): int {
    MakeDate(DeadlineDay(Day(t)), TimeWithinDay(t))
  }

  /** A date object, changed in place. */
  class JsDate {
    var t: int

    constructor (time: int)
      ensures t == time
    {
      t := time;
    }

    function GetUTCDate(): int
      reads this
    {
      DateOf(Day(t)).day
    }

    function GetUTCMonth(): int
      reads this
    {
      DateOf(Day(t)).month
    }

    /** Section 15.9.5.39, with one argument. */
    method SetUTCMonth(month: int)
      modifies this
      ensures var d := DateOf(Day(old(t)));
        t == MakeDate(MakeDay(d.year, month, d.day), TimeWithinDay(old(t)))
    {
      var d := DateOf(Day(t));
      t := MakeDate(MakeDay(d.year, month, d.day), TimeWithinDay(t));
    }

    /** Section 15.9.5.37. */
    method SetUTCDate(date: int)
      modifies this
      ensures var d := DateOf(Day(old(t)));
        t == MakeDate(MakeDay(d.year, d.month, date), TimeWithinDay(old(t)))
    {
      var d := DateOf(Day(t));
      t := MakeDate(MakeDay(d.year, d.month, date), TimeWithinDay(t));
    }
  }

  lemma MadeDate(day: int, time: int)
    requires 0 <= time < MS_PER_DAY
    ensures Day(MakeDate(day, time)) == day && TimeWithinDay(MakeDate(day, time)) == time
  {
  }

  /** The first of the two changes lands in the month wanted, or on the first days of the next. */
  lemma FirstChange(d: Date)
    requires d.Valid()
    ensures var day := MakeDay(d.year, d.month + APPEAL_WINDOW_MONTHS, d.day);
      if DateOf(day).day == d.day then day == DayOf(SixMonthsOn(d))
      else MakeDay(DateOf(day).year, DateOf(day).month, 0) == DayOf(SixMonthsOn(d))
  {
    hide DayFromYear, DaysBefore, DaysIn, MonthStart, MonthDays, MakeDay, DateOf, DayOf, YearAt, MonthAt, Date.Valid;
    SixMonthsOnIs(d);
    DayInMonths(d);
    var k := MonthIndex(d) + APPEAL_WINDOW_MONTHS;
    MakeDayInMonths(d.year, d.month + APPEAL_WINDOW_MONTHS, d.day);
    MonthStartNext(MonthIndex(d));
    MonthStartNext(k);
    MonthStartNext(k + 1);
    if d.day <= MonthDays(k) {
      DateInMonth(k, d.day);
    } else {
      DateInMonth(k + 1, d.day - MonthDays(k));
      MakeDayInMonths(YearAt(k + 1), MonthAt(k + 1), 0);
      MonthCount(k + 1);
    }
  }

  method AppealDeadline(decidedAt: JsDate) returns (deadline: JsDate)
    ensures fresh(deadline) && decidedAt.t == old(decidedAt.t)
    ensures deadline.t == Deadline(decidedAt.t)
  {
    hide MakeDay, DateOf, MakeDate, Day;
    ghost var d := DateOf(Day(decidedAt.t));
    SixMonthsOnIs(d);
    FirstChange(d);
    ghost var first := MakeDay(d.year, d.month + APPEAL_WINDOW_MONTHS, d.day);
    ghost var time := TimeWithinDay(decidedAt.t);
    MadeDate(first, time);
    deadline := new JsDate(decidedAt.t);
    var day := deadline.GetUTCDate();
    deadline.SetUTCMonth(deadline.GetUTCMonth() + APPEAL_WINDOW_MONTHS);
    if deadline.GetUTCDate() != day {
      deadline.SetUTCDate(0);
    }
  }

  // ---- when a later decision has an earlier deadline ----

  /** Both in one month, the earlier already on or past the day the deadlines are cut to. */
  predicate CutTogether(a: Date, b: Date) {
    MonthIndex(a) == MonthIndex(b) && a.day < b.day && MonthDays(MonthIndex(a) + APPEAL_WINDOW_MONTHS) <= a.day
  }

  /** By days, the deadlines keep the order of the decisions. */
  lemma DeadlineDaysRise(a: int, b: int)
    requires a < b
    ensures DeadlineDay(a) <= DeadlineDay(b)
    ensures DeadlineDay(a) == DeadlineDay(b) <==> CutTogether(DateOf(a), DateOf(b))
  {
    hide DayFromYear, DaysBefore, DaysIn, MonthStart, MonthDays, MakeDay, DateOf, DayOf;
    hide YearAt, MonthAt, MonthIndex, Date.Valid, SixMonthsOn;
    var d, e := DateOf(a), DateOf(b);
    var k, l := MonthIndex(d), MonthIndex(e);
    DeadlineDayIs(a, d);
    DeadlineDayIs(b, e);
    if l < k { MonthStartsRise(l + 1, k); }
    if k < l { MonthStartsRise(k + APPEAL_WINDOW_MONTHS + 1, l + APPEAL_WINDOW_MONTHS); }
  }

  lemma DeadlineDayIs(day: int, d: Date)
    requires d == DateOf(day)
    ensures var k := MonthIndex(d); var last := k + APPEAL_WINDOW_MONTHS;
      && day == MonthStart(k) + d.day - 1 && 1 <= d.day <= MonthDays(k)
      && MonthStart(k + 1) == MonthStart(k) + MonthDays(k)
      && DeadlineDay(day) == MonthStart(last) + Min(d.day, MonthDays(last)) - 1
      && MonthStart(last + 1) == MonthStart(last) + MonthDays(last) && 28 <= MonthDays(last)
  {
    hide DayFromYear, DaysBefore, DaysIn, MonthStart, MonthDays, MakeDay, DateOf, DayOf;
    hide YearAt, MonthAt, MonthIndex, Date.Valid, SixMonthsOn;
    DayOfDate(day);
    DayInMonths(d);
    SixMonthsOnIs(d);
    MonthStartNext(MonthIndex(d));
    MonthStartNext(MonthIndex(d) + APPEAL_WINDOW_MONTHS);
  }

  /** A later decision has no earlier deadline, except when both deadlines are cut to the last day of
      one month and the later decision was taken at an earlier time of day. */
  lemma KeepsOrderIff(s: int, t: int)
    requires s <= t
    ensures Deadline(s) <= Deadline(t) <==>
      !(CutTogether(DateOf(Day(s)), DateOf(Day(t))) && TimeWithinDay(t) < TimeWithinDay(s))
  {
    hide DateOf, CutTogether, DeadlineDay;
    if Day(s) == Day(t) { SameDayNotCut(DateOf(Day(s))); }
    else { DeadlineDaysRise(Day(s), Day(t)); }
  }

  lemma SameDayNotCut(d: Date)
    ensures !CutTogether(d, d)
  {
  }

  /** It happens every year: of two decisions on the last two days of August, the one taken later, but
      earlier in its day, can be appealed for less long. */
  lemma EveryAugust(y: int, time: int)
    requires 0 < time < MS_PER_DAY
    ensures Date(y, 7, 30).Valid() && Date(y, 7, 31).Valid()
    ensures var s, t := MakeDate(DayOf(Date(y, 7, 30)), time), MakeDate(DayOf(Date(y, 7, 31)), time - 1);
      s < t && Deadline(t) < Deadline(s)
  {
    var d, e := Date(y, 7, 30), Date(y, 7, 31);
    EndOfAugust(y);
    hide DayOf, DateOf, CutTogether, Deadline, Date.Valid;
    MadeDate(DayOf(d), time);
    MadeDate(DayOf(e), time - 1);
    KeepsOrderIff(MakeDate(DayOf(d), time), MakeDate(DayOf(e), time - 1));
  }

  lemma EndOfAugust(y: int)
    ensures Date(y, 7, 30).Valid() && Date(y, 7, 31).Valid()
    ensures var d, e := Date(y, 7, 30), Date(y, 7, 31);
      DayOf(e) == DayOf(d) + 1 && DateOf(DayOf(d)) == d && DateOf(DayOf(e)) == e && CutTogether(d, e)
  {
    hide DateOf;
    var d, e := Date(y, 7, 30), Date(y, 7, 31);
    DateOfDay(d);
    DateOfDay(e);
    DayOfIs(d);
    DayOfIs(e);
    hide DayOf;
    CountIs(y, 13);
    FebruaryIsShort(MonthIndex(d) + APPEAL_WINDOW_MONTHS);
  }

  lemma FebruaryIsShort(k: int)
    requires MonthAt(k) == 1
    ensures MonthDays(k) <= 29
  {
  }
}
