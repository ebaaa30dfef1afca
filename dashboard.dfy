// The dashboard (src/pages/Dashboard.tsx): today's worked minutes, the
// week's minutes per day and in total, the remaining part of the 8-hour
// day, the hour text and the suggested next punch.

module Dashboard {
  import opened Basics
  import opened Seqs
  import opened Model
  import opened Calendar
  import opened Text
  import opened RecordOrder
  import opened WorkedTime
  import opened Report
  import opened Store

  // ---------------------------------------------------------------------
  // Today

  /** calculateHoursWorked, in minutes: the loop over the list in the order
      given, plus a session still open at the end up to `now`, whatever day
      it started on. */
  function HoursWorked(rs: seq<TimeRecord>, now: int): (m: int)
    ensures Scan(rs).openSince.None? ==> m == Scan(rs).minutes
    ensures rs == [] ==> m == 0
  {
    var t := Scan(rs);
    if t.openSince.Some? then t.minutes + DiffMinutes(now, t.openSince.value) else t.minutes
  }

  /** On a list in time order with no punch after `now` the figure is not
      negative. */
  lemma HoursWorkedNonNegative(rs: seq<TimeRecord>, now: int)
    requires SortedByTime(rs) && AllAtMost(rs, now)
    ensures HoursWorked(rs, now) >= 0
  {
    ScanNonNegative(rs);
  }

  /** On punches that all fall on the day of `now`, the dashboard figure for
      the sorted list equals the report's figure for that day. */
  lemma TodayFiguresAgree(rs: seq<TimeRecord>, now: int)
    requires forall i :: 0 <= i < |rs| ==> SameDay(rs[i].timestamp, now)
    ensures HoursWorked(SortByTime(rs), now) == DayMinutes(rs, now)
  {
    OpenSinceIsAPunch(rs);
    var t := Scan(SortByTime(rs));
    if t.openSince.Some? {
      var r :| r in rs && r.timestamp == t.openSince.value;
      var i :| 0 <= i < |rs| && rs[i] == r;
      assert SameDay(t.openSince.value, now);
    }
  }

  /** Without the same-day test, a session opened at 09:00 and never closed
      still counts the next morning: 25 hours at 10:00 the following day,
      where the report counts nothing. */
  lemma OpenSessionFromYesterday()
    ensures HoursWorked([At(CheckIn, 9, 0)], MillisPerDay + 10 * 3_600_000) == 25 * 60
    ensures DayMinutes([At(CheckIn, 9, 0)], MillisPerDay + 10 * 3_600_000) == 0
  {
    OpenSessionToday();
  }

  /** The page's loop, which is the report's loop run over the list as given. */
  method CalculateHoursWorked(records: seq<TimeRecord>, now: int) returns (minutes: int)
    ensures minutes == HoursWorked(records, now)
  {
    var total, checkInTime := ScanRecords(records);
    minutes := total;
    if checkInTime.Some? {
      minutes := minutes + DiffMinutes(now, checkInTime.value);
    }
  }

  /** The "Restantes" slice of the pie chart, in minutes: what is missing to
      8 hours, never negative. */
  function Remaining(worked: int): (r: int)
    ensures r >= 0 && worked + r >= MinutesPerWorkDay
    ensures worked <= MinutesPerWorkDay ==> worked + r == MinutesPerWorkDay
    ensures worked >= MinutesPerWorkDay ==> r == 0
  {
    if MinutesPerWorkDay - worked > 0 then MinutesPerWorkDay - worked else 0
  }

  /** The dashboard's formatHours on a whole number of minutes: the hours
      rounded down, then " Mmin" when M is not 0. */
  function FormatHoursPlain(m: int): (s: string)
    ensures |s| >= 2
  {
    IntToString(m / 60) + "h" + MinuteSuffix(m % 60)
  }

  /** On a non-negative figure it prints what the report's formatter
      prints without a sign. */
  lemma FormatHoursPlainAgrees(m: nat)
    ensures FormatHoursPlain(m) == FormatMinutes(m, false)
  {
  }

  /** Rounding down makes a negative half hour "-1h 30min". */
  lemma FormatHoursPlainNegative()
    ensures FormatHoursPlain(-30) == "-1h 30min"
  {
    assert NatToString(1) == "1" && NatToString(30) == "30";
  }

  /** The "Próximo Ponto" card. */
  function NextPunch(today: seq<TimeRecord>): (s: string)
    ensures s == "Entrada" <==> today == [] || today[|today| - 1].kind == CheckOut
    ensures s == "Fim de Intervalo" <==> today != [] && today[|today| - 1].kind == BreakStart
    ensures s == "Sa\U{00ED}da" <==> LastOpen(today).Some?
  {
    if today == [] then "Entrada"
    else
      match today[|today| - 1].kind
      case CheckIn => "Sa\U{00ED}da"
      case CheckOut => "Entrada"
      case BreakStart => "Fim de Intervalo"
      case BreakEnd => "Sa\U{00ED}da"
  }

  /** The suggestion is "Saída" exactly when the worked-time loop ends with
      a session open. */
  lemma NextPunchFollowsScan(today: seq<TimeRecord>)
    ensures NextPunch(today) == "Sa\U{00ED}da" <==> Scan(today).openSince.Some?
  {
    ScanIsAdjacentPairs(today);
  }

  /** loadTodayRecords: the user's punches from 00:00:00.000 to 23:59:59.999
      of the day of `now`, sorted in place, then the hours and the next
      punch computed on the sorted list. */
  method LoadTodayRecords(db: Database, userId: string, now: int) returns (todayRecords: seq<TimeRecord>, minutes: int, next: string)
    requires db.Valid()
    ensures forall x :: multiset(todayRecords)[x] == if x in db.timeRecords.Values && x.userId == userId && SameDay(x.timestamp, now) then 1 else 0
    ensures forall x :: x in todayRecords <==> x in db.timeRecords.Values && x.userId == userId && SameDay(x.timestamp, now)
    ensures SortedByTime(todayRecords)
    ensures minutes == HoursWorked(todayRecords, now) == DayMinutes(todayRecords, now)
    ensures next == NextPunch(todayRecords)
  {
    var today := DayOf(now);
    var fetched := db.GetTimeRecordsByDate(userId, DayStart(today), DayEnd(today));
    DayOrderFacts();
    var a := new TimeRecord[|fetched|](i requires 0 <= i < |fetched| => fetched[i]);
    assert a[..] == fetched;
    SortRecords(a);
    todayRecords := a[..];
    SortByTimeSorted(fetched);
    SortByTimePermutes(fetched);
    assert multiset(todayRecords) == multiset(fetched);
    minutes := CalculateHoursWorked(todayRecords, now);
    next := NextPunch(todayRecords);
    forall i | 0 <= i < |todayRecords|
      ensures SameDay(todayRecords[i].timestamp, now)
    {
      assert todayRecords[i] in todayRecords;
    }
    TodayFiguresAgree(todayRecords, now);
    SortSortedIsIdentity(todayRecords);
  }

  // ---------------------------------------------------------------------
  // The week

  /** startOfWeek with weekStartsOn Monday: the Monday on or before day d. */
  function WeekStartOf(d: int): (w: int)
    ensures Weekday(w) == 1 && w <= d < w + 7
  {
    d - (Weekday(d) + 6) % 7
  }

  /** One day of calculateWeeklyHours: the loop over the day's punches
      sorted by time, plus the open session up to `now` only when the day is
      today. */
  function WeekDayMinutes(rs: seq<TimeRecord>, d: int, now: int): int {
    var t := Scan(SortByTime(OnDay(rs, d)));
    if d == DayOf(now) && t.openSince.Some? then t.minutes + DiffMinutes(now, t.openSince.value) else t.minutes
  }

  /** The weekly chart's figure for a day is the report's figure for it. */
  lemma WeekDayAgreesWithReport(rs: seq<TimeRecord>, d: int, now: int)
    ensures WeekDayMinutes(rs, d, now) == DayMinutes(OnDay(rs, d), now)
  {
    var g := OnDay(rs, d);
    OpenSinceIsAPunch(g);
    var t := Scan(SortByTime(g));
    if t.openSince.Some? {
      var r :| r in g && r.timestamp == t.openSince.value;
      assert DayOf(t.openSince.value) == d;
    }
  }

  /** The sum of daily[from], ..., daily[from + n - 1]. */
  function WeekSum(daily: map<int, int>, from: int, n: nat): int
    requires forall d :: from <= d < from + n ==> d in daily
    decreases n
  {
    if n == 0 then 0 else WeekSum(daily, from, n - 1) + daily[from + n - 1]
  }

  /** Adding x to one day of the range adds x to the sum. */
  lemma {:induction false} WeekSumAdd(daily: map<int, int>, from: int, n: nat, d: int, x: int)
    requires forall e :: from <= e < from + n ==> e in daily
    requires from <= d < from + n
    ensures WeekSum(daily[d := daily[d] + x], from, n) == WeekSum(daily, from, n) + x
    decreases n
  {
    if d < from + n - 1 {
      WeekSumAdd(daily, from, n - 1, d, x);
    } else if n > 1 {
      WeekSumSame(daily, daily[d := daily[d] + x], from, n - 1);
    }
  }

  lemma {:induction false} WeekSumSame(a: map<int, int>, b: map<int, int>, from: int, n: nat)
    requires forall e :: from <= e < from + n ==> e in a && e in b && a[e] == b[e]
    ensures WeekSum(a, from, n) == WeekSum(b, from, n)
    decreases n
  {
    if n > 0 {
      WeekSumSame(a, b, from, n - 1);
    }
  }

  lemma {:induction false} WeekSumZero(daily: map<int, int>, from: int, n: nat)
    requires forall e :: from <= e < from + n ==> e in daily && daily[e] == 0
    ensures WeekSum(daily, from, n) == 0
    decreases n
  {
    if n > 0 {
      WeekSumZero(daily, from, n - 1);
    }
  }

  /** The seven keys Monday..Sunday, each at 0. */
  method InitialWeek(weekStart: int) returns (daily: map<int, int>)
    ensures forall d :: d in daily <==> weekStart <= d < weekStart + 7
    ensures forall d :: d in daily ==> daily[d] == 0
  {
    daily := map[];
    for i := 0 to 7
      invariant forall d :: d in daily <==> weekStart <= d < weekStart + i
      invariant forall d :: d in daily ==> daily[d] == 0
    {
      daily := daily[weekStart + i := 0];
    }
  }

  /** One day's figure, computed as the page does: the day's list sorted in
      place, then scanned. */
  method DayOfWeekMinutes(records: seq<TimeRecord>, dayRecords: seq<TimeRecord>, day: int, now: int) returns (minutes: int)
    requires dayRecords == OnDay(records, day)
    ensures minutes == WeekDayMinutes(records, day, now)
  {
    var a := new TimeRecord[|dayRecords|](i requires 0 <= i < |dayRecords| => dayRecords[i]);
    assert a[..] == dayRecords;
    SortRecords(a);
    var checkInTime;
    minutes, checkInTime := ScanRecords(a[..]);
    if day == DayOf(now) && checkInTime.Some? {
      minutes := minutes + DiffMinutes(now, checkInTime.value);
    }
  }

  /** The page's two accumulators after the days in `done` were handled:
      the seven keys, the figures of the handled days (0 for the others),
      and a running total equal both to the map's sum and to the report's
      sum over those days. */
  ghost predicate WeekSoFar(records: seq<TimeRecord>, done: seq<int>, daily: map<int, int>, total: int, weekStart: int, now: int) {
    && WeekEntries(records, done, daily, weekStart, now)
    && total == WeekSum(daily, weekStart, 7)
    && total == SumDays(records, done, now)
  }

  ghost predicate WeekEntries(records: seq<TimeRecord>, done: seq<int>, daily: map<int, int>, weekStart: int, now: int) {
    && (forall d :: d in daily <==> weekStart <= d < weekStart + 7)
    && (forall d :: d in daily ==> daily[d] == if d in done then WeekDayMinutes(records, d, now) else 0)
  }

  lemma WeekEntriesStep(records: seq<TimeRecord>, done: seq<int>, day: int, daily: map<int, int>, weekStart: int, now: int)
    requires WeekEntries(records, done, daily, weekStart, now)
    requires day !in done && weekStart <= day < weekStart + 7
    ensures WeekEntries(records, done + [day], daily[day := daily[day] + WeekDayMinutes(records, day, now)], weekStart, now)
  {
  }

  lemma SumDaysStep(records: seq<TimeRecord>, done: seq<int>, day: int, now: int)
    ensures SumDays(records, done + [day], now) == SumDays(records, done, now) + DayMinutes(OnDay(records, day), now)
  {
    assert (done + [day])[..|done|] == done;
  }

  /** Adding a new day's figure to its entry and to the total keeps them in
      step. */
  lemma WeekStep(records: seq<TimeRecord>, done: seq<int>, day: int, daily: map<int, int>, total: int, weekStart: int, now: int)
    requires WeekSoFar(records, done, daily, total, weekStart, now)
    requires day !in done && weekStart <= day < weekStart + 7
    ensures var m := WeekDayMinutes(records, day, now);
      WeekSoFar(records, done + [day], daily[day := daily[day] + m], total + m, weekStart, now)
  {
    var m := WeekDayMinutes(records, day, now);
    WeekEntriesStep(records, done, day, daily, weekStart, now);
    WeekSumAdd(daily, weekStart, 7, day, m);
    WeekDayAgreesWithReport(records, day, now);
    SumDaysStep(records, done, day, now);
  }

  /** The days with punches of the week are among its seven days. */
  lemma DayKeysInWeek(records: seq<TimeRecord>, weekStart: int)
    requires forall i :: 0 <= i < |records| ==> weekStart <= DayOf(records[i].timestamp) < weekStart + 7
    ensures forall d :: d in DayKeys(records) ==> weekStart <= d < weekStart + 7
  {
    forall d | d in DayKeys(records)
      ensures weekStart <= d < weekStart + 7
    {
      var r :| r in records && DayOf(r.timestamp) == d;
    }
  }

  /** Once every day with punches is handled, every entry is that day's
      figure and the total is the report's total. */
  lemma WeekDone(records: seq<TimeRecord>, daily: map<int, int>, total: int, weekStart: int, now: int)
    requires WeekSoFar(records, DayKeys(records), daily, total, weekStart, now)
    ensures forall d :: d in daily ==> daily[d] == WeekDayMinutes(records, d, now) == DayMinutes(OnDay(records, d), now)
    ensures total == TotalMinutes(records, now)
  {
    forall d | d in daily
      ensures daily[d] == WeekDayMinutes(records, d, now) == DayMinutes(OnDay(records, d), now)
    {
      WeekDayAgreesWithReport(records, d, now);
      if d !in DayKeys(records) {
        OnDayEmpty(records, d);
      }
    }
  }

  /** The loop over the grouped days: each day's figure goes to its entry
      and to the total. */
  method AddDays(records: seq<TimeRecord>, grouped: map<int, seq<TimeRecord>>, days: seq<int>, start: map<int, int>, weekStart: int, now: int)
    returns (daily: map<int, int>, total: int)
    requires Distinct(days)
    requires forall d :: d in days ==> weekStart <= d < weekStart + 7
    requires forall d :: d in days ==> d in grouped && grouped[d] == OnDay(records, d)
    requires WeekSoFar(records, [], start, 0, weekStart, now)
    ensures WeekSoFar(records, days, daily, total, weekStart, now)
  {
    daily, total := start, 0;
    for j := 0 to |days|
      invariant WeekSoFar(records, days[..j], daily, total, weekStart, now)
    {
      var day := days[j];
      PrefixSnoc(days, j);
      assert day in days;
      assert day !in days[..j] by {
        assert forall k :: 0 <= k < j ==> days[..j][k] == days[k] != day;
      }
      var minutes := DayOfWeekMinutes(records, grouped[day], day, now);
      WeekStep(records, days[..j], day, daily, total, weekStart, now);
      daily := daily[day := daily[day] + minutes];
      total := total + minutes;
    }
    assert days[..|days|] == days;
  }

  /** calculateWeeklyHours on punches of the week starting on weekStart:
      a figure for each of the seven days (0 for a day without punches) and
      a total that is both the sum of the seven figures and the report's
      total over the same punches. */
  method CalculateWeeklyHours(records: seq<TimeRecord>, weekStart: int, now: int) returns (daily: map<int, int>, total: int)
    requires forall i :: 0 <= i < |records| ==> weekStart <= DayOf(records[i].timestamp) < weekStart + 7
    ensures forall d :: d in daily <==> weekStart <= d < weekStart + 7
    ensures forall d :: d in daily ==> daily[d] == WeekDayMinutes(records, d, now) == DayMinutes(OnDay(records, d), now)
    ensures total == WeekSum(daily, weekStart, 7)
    ensures total == TotalMinutes(records, now)
  {
    var start := InitialWeek(weekStart);
    WeekSumZero(start, weekStart, 7);
    var grouped, days := GroupRecordsByDay(records);
    DayKeysInWeek(records, weekStart);
    daily, total := AddDays(records, grouped, days, start, weekStart, now);
    WeekDone(records, daily, total, weekStart, now);
  }

  /** loadWeekRecords: the user's punches from Monday 00:00 to Sunday
      23:59:59.999 of the week of `now`, then the weekly figures. */
  method LoadWeekRecords(db: Database, userId: string, now: int) returns (weekRecords: seq<TimeRecord>, daily: map<int, int>, total: int)
    requires db.Valid()
    ensures var w := WeekStartOf(DayOf(now));
      forall x :: multiset(weekRecords)[x] == if x in db.timeRecords.Values && x.userId == userId && w <= DayOf(x.timestamp) < w + 7 then 1 else 0
    ensures var w := WeekStartOf(DayOf(now));
      forall x :: x in weekRecords <==> x in db.timeRecords.Values && x.userId == userId && w <= DayOf(x.timestamp) < w + 7
    ensures var w := WeekStartOf(DayOf(now));
      forall d :: d in daily <==> w <= d < w + 7
    ensures forall d :: d in daily ==> daily[d] == DayMinutes(OnDay(weekRecords, d), now)
    ensures total == WeekSum(daily, WeekStartOf(DayOf(now)), 7) == TotalMinutes(weekRecords, now)
  {
    var weekStart := WeekStartOf(DayOf(now));
    weekRecords := db.GetTimeRecordsByDate(userId, DayStart(weekStart), DayEnd(weekStart + 6));
    DayOrderFacts();
    forall i | 0 <= i < |weekRecords|
      ensures weekStart <= DayOf(weekRecords[i].timestamp) < weekStart + 7
    {
      assert weekRecords[i] in weekRecords;
    }
    daily, total := CalculateWeeklyHours(weekRecords, weekStart, now);
  }
}
