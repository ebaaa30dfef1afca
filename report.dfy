// The report page (src/pages/Relatorios.tsx): the punches of a period are
// grouped by calendar day, each day is run through the worked-time
// calculator, and the page derives the period total, the average per day
// with punches, the working days of the period, the expected minutes, the
// balance and the text shown for each of them.

module Report {
  import opened Basics
  import opened Model
  import opened Calendar
  import opened Seqs
  import opened Text
  import opened RecordOrder
  import opened WorkedTime
  import opened Store

  // ---------------------------------------------------------------------
  // Grouping by day

  /** The test "falls on day d" the grouping applies. */
  function DayIs(d: int): TimeRecord -> bool {
    (r: TimeRecord) => DayOf(r.timestamp) == d
  }

  /** The punches of day d, in the order they were given. */
  function OnDay(rs: seq<TimeRecord>, d: int): (g: seq<TimeRecord>)
    ensures forall r :: r in g <==> r in rs && DayOf(r.timestamp) == d
  {
    FilterMembers(rs, DayIs(d));
    Filter(rs, DayIs(d))
  }

  lemma OnDaySnoc(rs: seq<TimeRecord>, x: TimeRecord, d: int)
    ensures OnDay(rs + [x], d) == OnDay(rs, d) + (if DayOf(x.timestamp) == d then [x] else [])
  {
    assert (rs + [x])[..|rs|] == rs;
  }

  predicate Distinct(ks: seq<int>) {
    forall i, j :: 0 <= i < j < |ks| ==> ks[i] != ks[j]
  }

  /** The days that have punches, in the order their first punch appears
      (the key order of the page's dictionary). */
  function DayKeys(rs: seq<TimeRecord>): (ks: seq<int>)
    ensures Distinct(ks)
    ensures forall d :: d in ks <==> exists r :: r in rs && DayOf(r.timestamp) == d
    decreases |rs|
  {
    if rs == [] then []
    else
      var init, last := rs[..|rs| - 1], rs[|rs| - 1];
      assert rs == init + [last];
      var ks := DayKeys(init);
      if DayOf(last.timestamp) in ks then ks else ks + [DayOf(last.timestamp)]
  }

  lemma DayKeysSnoc(rs: seq<TimeRecord>, x: TimeRecord)
    ensures var d := DayOf(x.timestamp);
      DayKeys(rs + [x]) == if d in DayKeys(rs) then DayKeys(rs) else DayKeys(rs) + [d]
  {
    assert (rs + [x])[..|rs|] == rs;
  }

  lemma OnDayEmpty(rs: seq<TimeRecord>, d: int)
    requires d !in DayKeys(rs)
    ensures OnDay(rs, d) == []
  {
    forall i | 0 <= i < |rs|
      ensures !DayIs(d)(rs[i])
    {
      assert rs[i] in rs;
    }
    FilterNone(rs, DayIs(d));
  }

  /** `grouped` and `days` are the dictionary and key order for rs. */
  ghost predicate GroupedAs(grouped: map<int, seq<TimeRecord>>, days: seq<int>, rs: seq<TimeRecord>) {
    && days == DayKeys(rs)
    && (forall d :: d in grouped <==> d in days)
    && forall d :: d in grouped ==> grouped[d] == OnDay(rs, d) && grouped[d] != []
  }

  /** Pushing one more punch onto its day's list (creating the list first if
      the day is new) keeps the dictionary in step. */
  lemma GroupedStepOld(grouped: map<int, seq<TimeRecord>>, days: seq<int>, rs: seq<TimeRecord>, x: TimeRecord)
    requires GroupedAs(grouped, days, rs)
    requires DayOf(x.timestamp) in grouped
    ensures GroupedAs(grouped[DayOf(x.timestamp) := grouped[DayOf(x.timestamp)] + [x]], days, rs + [x])
  {
    var day := DayOf(x.timestamp);
    var g := grouped[day := grouped[day] + [x]];
    DayKeysSnoc(rs, x);
    forall d | d in g
      ensures g[d] == OnDay(rs + [x], d)
    {
      OnDaySnoc(rs, x, d);
    }
  }

  lemma GroupedStepNew(grouped: map<int, seq<TimeRecord>>, days: seq<int>, rs: seq<TimeRecord>, x: TimeRecord)
    requires GroupedAs(grouped, days, rs)
    requires DayOf(x.timestamp) !in grouped
    ensures GroupedAs(grouped[DayOf(x.timestamp) := [x]], days + [DayOf(x.timestamp)], rs + [x])
  {
    var day := DayOf(x.timestamp);
    var g := grouped[day := [x]];
    DayKeysSnoc(rs, x);
    assert day !in DayKeys(rs);
    forall d | d in g
      ensures g[d] == OnDay(rs + [x], d) && g[d] != []
    {
      OnDaySnoc(rs, x, d);
      if d == day {
        OnDayEmpty(rs, day);
      } else {
        assert g[d] == grouped[d];
      }
    }
  }

  /** groupRecordsByDay: a dictionary from day to that day's punches plus
      its key order. */
  method GroupRecordsByDay(records: seq<TimeRecord>) returns (grouped: map<int, seq<TimeRecord>>, days: seq<int>)
    ensures days == DayKeys(records)
    ensures grouped.Keys == set d | d in days
    ensures forall d :: d in grouped ==> grouped[d] == OnDay(records, d) && grouped[d] != []
  {
    grouped, days := map[], [];
    for i := 0 to |records|
      invariant GroupedAs(grouped, days, records[..i])
    {
      var record := records[i];
      var day := DayOf(record.timestamp);
      assert records[..i + 1] == records[..i] + [record];
      if day !in grouped {
        GroupedStepNew(grouped, days, records[..i], record);
        grouped := grouped[day := []];
        days := days + [day];
      } else {
        GroupedStepOld(grouped, days, records[..i], record);
      }
      grouped := grouped[day := grouped[day] + [record]];
    }
    assert records[..|records|] == records;
  }

  /** Total number of punches over the groups of the listed days. */
  function GroupSizes(rs: seq<TimeRecord>, ks: seq<int>): int
    decreases |ks|
  {
    if ks == [] then 0 else GroupSizes(rs, ks[..|ks| - 1]) + |OnDay(rs, ks[|ks| - 1])|
  }

  lemma {:induction false} GroupSizesSnoc(rs: seq<TimeRecord>, x: TimeRecord, ks: seq<int>)
    requires Distinct(ks)
    ensures GroupSizes(rs + [x], ks) == GroupSizes(rs, ks) + (if DayOf(x.timestamp) in ks then 1 else 0)
    decreases |ks|
  {
    if ks != [] {
      var init, k := ks[..|ks| - 1], ks[|ks| - 1];
      assert ks == init + [k];
      GroupSizesSnoc(rs, x, init);
      OnDaySnoc(rs, x, k);
      assert DayOf(x.timestamp) == k ==> DayOf(x.timestamp) !in init;
    }
  }

  /** Every punch lands in exactly one group: the group sizes add up to the
      number of punches. */
  lemma {:induction false} EveryRecordInOneGroup(rs: seq<TimeRecord>)
    ensures GroupSizes(rs, DayKeys(rs)) == |rs|
    decreases |rs|
  {
    if rs != [] {
      var init, x := rs[..|rs| - 1], rs[|rs| - 1];
      assert rs == init + [x];
      var ks := DayKeys(init);
      EveryRecordInOneGroup(init);
      GroupSizesSnoc(init, x, ks);
      var d := DayOf(x.timestamp);
      if d !in ks {
        assert DayKeys(rs) == ks + [d];
        assert (ks + [d])[..|ks|] == ks;
        OnDayEmpty(init, d);
        OnDaySnoc(init, x, d);
      }
    }
  }

  /** Each group keeps the punches in their original relative order. */
  lemma GroupKeepsOrder(rs: seq<TimeRecord>, d: int)
    ensures IsSubsequence(OnDay(rs, d), rs)
  {
    FilterIsSubsequence(rs, DayIs(d));
  }

  // ---------------------------------------------------------------------
  // Period figures

  /** Sum of the day results over the listed days. */
  function SumDays(rs: seq<TimeRecord>, ks: seq<int>, now: int): int
    decreases |ks|
  {
    if ks == [] then 0 else SumDays(rs, ks[..|ks| - 1], now) + DayMinutes(OnDay(rs, ks[|ks| - 1]), now)
  }

  /** totalHours, in minutes: the day results of every day with punches. */
  function TotalMinutes(rs: seq<TimeRecord>, now: int): int {
    SumDays(rs, DayKeys(rs), now)
  }

  lemma AllAtMostOnDay(rs: seq<TimeRecord>, d: int, now: int)
    requires AllAtMost(rs, now)
    ensures AllAtMost(OnDay(rs, d), now)
  {
    var g := OnDay(rs, d);
    forall i | 0 <= i < |g|
      ensures g[i].timestamp <= now
    {
      assert g[i] in g;
      var j :| 0 <= j < |rs| && rs[j] == g[i];
    }
  }

  lemma {:induction false} SumDaysNonNegative(rs: seq<TimeRecord>, ks: seq<int>, now: int)
    requires AllAtMost(rs, now)
    ensures SumDays(rs, ks, now) >= 0
    decreases |ks|
  {
    if ks != [] {
      SumDaysNonNegative(rs, ks[..|ks| - 1], now);
      AllAtMostOnDay(rs, ks[|ks| - 1], now);
    }
  }

  /** When no punch lies in the future the period total is not negative. */
  lemma TotalNonNegative(rs: seq<TimeRecord>, now: int)
    requires AllAtMost(rs, now)
    ensures TotalMinutes(rs, now) >= 0
  {
    SumDaysNonNegative(rs, DayKeys(rs), now);
  }

  /** averageHours, in minutes: the total over the number of days with
      punches, and 0 when there are none. */
  function AverageMinutes(total: int, days: nat): (avg: real)
    ensures days > 0 ==> avg * days as real == total as real
    ensures days == 0 ==> avg == 0.0
  {
    if days > 0 then total as real / days as real else 0.0
  }

  lemma {:induction false} DayKeysOneDay(a: seq<TimeRecord>, da: int)
    requires a != []
    requires forall i :: 0 <= i < |a| ==> DayOf(a[i].timestamp) == da
    ensures DayKeys(a) == [da]
    decreases |a|
  {
    if |a| > 1 {
      DayKeysOneDay(a[..|a| - 1], da);
    }
  }

  lemma {:induction false} DayKeysTwoDays(a: seq<TimeRecord>, b: seq<TimeRecord>, da: int, db: int)
    requires a != [] && b != [] && da != db
    requires forall i :: 0 <= i < |a| ==> DayOf(a[i].timestamp) == da
    requires forall i :: 0 <= i < |b| ==> DayOf(b[i].timestamp) == db
    ensures DayKeys(a + b) == [da, db]
    decreases |b|
  {
    var s := a + b;
    assert s[..|s| - 1] == a + b[..|b| - 1];
    if |b| == 1 {
      DayKeysOneDay(a, da);
      assert s[..|s| - 1] == a;
    } else {
      DayKeysTwoDays(a, b[..|b| - 1], da, db);
    }
  }

  lemma OnDayOfTwo(a: seq<TimeRecord>, b: seq<TimeRecord>, da: int, db: int)
    requires da != db
    requires forall i :: 0 <= i < |a| ==> DayOf(a[i].timestamp) == da
    requires forall i :: 0 <= i < |b| ==> DayOf(b[i].timestamp) == db
    ensures OnDay(a + b, da) == a && OnDay(b + a, da) == a
  {
    FilterConcat(a, b, DayIs(da));
    FilterConcat(b, a, DayIs(da));
    FilterAll(a, DayIs(da));
    FilterNone(b, DayIs(da));
  }

  lemma SumTwoDays(rs: seq<TimeRecord>, da: int, db: int, now: int)
    ensures SumDays(rs, [da, db], now) == DayMinutes(OnDay(rs, da), now) + DayMinutes(OnDay(rs, db), now)
  {
    assert [da, db][..1] == [da] && [da][..0] == [];
    assert SumDays(rs, [], now) == 0;
    assert SumDays(rs, [da], now) == DayMinutes(OnDay(rs, da), now);
  }

  /** Two days of punches: the report has exactly those two days, the total
      is the sum of the two day results and the average is its half. */
  lemma TwoDayPeriod(a: seq<TimeRecord>, b: seq<TimeRecord>, da: int, db: int, now: int)
    requires a != [] && b != [] && da != db
    requires forall i :: 0 <= i < |a| ==> DayOf(a[i].timestamp) == da
    requires forall i :: 0 <= i < |b| ==> DayOf(b[i].timestamp) == db
    ensures DayKeys(a + b) == [da, db]
    ensures TotalMinutes(a + b, now) == DayMinutes(a, now) + DayMinutes(b, now)
    ensures AverageMinutes(TotalMinutes(a + b, now), |DayKeys(a + b)|) == (DayMinutes(a, now) + DayMinutes(b, now)) as real / 2.0
  {
    DayKeysTwoDays(a, b, da, db);
    OnDayOfTwo(a, b, da, db);
    OnDayOfTwo(b, a, db, da);
    SumTwoDays(a + b, da, db, now);
  }

  // ---------------------------------------------------------------------
  // Working days and the reported period

  /** A weekday other than Sunday (0) and Saturday (6). */
  predicate IsWorkDay(d: int) {
    Weekday(d) != 0 && Weekday(d) != 6
  }

  /** calcWorkDays: the working days among the days first..last, both
      included; an empty range has none. */
  function WorkDaysBetween(first: int, last: int): (n: nat)
    ensures n <= if first <= last then last - first + 1 else 0
    decreases last - first
  {
    if last < first then 0 else WorkDaysBetween(first, last - 1) + (if IsWorkDay(last) then 1 else 0)
  }

  lemma {:induction false} WorkDaysSplit(a: int, b: int, c: int)
    requires a <= b + 1 && b <= c
    ensures WorkDaysBetween(a, c) == WorkDaysBetween(a, b) + WorkDaysBetween(b + 1, c)
    decreases c - b
  {
    if c > b {
      WorkDaysSplit(a, b, c - 1);
    }
  }

  function WorkDayCount(d: int): nat {
    if IsWorkDay(d) then 1 else 0
  }

  /** The working days of a seven-day range, day by day. */
  lemma SevenDaysUnfold(d: int)
    ensures WorkDaysBetween(d, d + 6) ==
      WorkDayCount(d) + WorkDayCount(d + 1) + WorkDayCount(d + 2) + WorkDayCount(d + 3) +
      WorkDayCount(d + 4) + WorkDayCount(d + 5) + WorkDayCount(d + 6)
  {
    assert WorkDaysBetween(d, d - 1) == 0;
    assert WorkDaysBetween(d, d) == WorkDayCount(d);
    assert WorkDaysBetween(d, d + 1) == WorkDaysBetween(d, d) + WorkDayCount(d + 1);
    assert WorkDaysBetween(d, d + 2) == WorkDaysBetween(d, d + 1) + WorkDayCount(d + 2);
    assert WorkDaysBetween(d, d + 3) == WorkDaysBetween(d, d + 2) + WorkDayCount(d + 3);
    assert WorkDaysBetween(d, d + 4) == WorkDaysBetween(d, d + 3) + WorkDayCount(d + 4);
    assert WorkDaysBetween(d, d + 5) == WorkDaysBetween(d, d + 4) + WorkDayCount(d + 5);
  }

  /** The day after a Saturday is a Sunday; otherwise the weekday moves on
      by one. */
  lemma WeekdayNext(d: int)
    ensures Weekday(d + 1) == if Weekday(d) == 6 then 0 else Weekday(d) + 1
  {
  }

  /** Any seven consecutive days hold exactly five working days. */
  lemma SevenDaysFiveWorkDays(d: int)
    ensures WorkDaysBetween(d, d + 6) == 5
  {
    SevenDaysUnfold(d);
    WeekdayNext(d);
    WeekdayNext(d + 1);
    WeekdayNext(d + 2);
    WeekdayNext(d + 3);
    WeekdayNext(d + 4);
    WeekdayNext(d + 5);
  }

  /** n whole weeks hold 5n working days. */
  lemma {:induction false} WholeWeeks(d: int, n: nat)
    ensures WorkDaysBetween(d, d + 7 * n - 1) == 5 * n
    decreases n
  {
    if n > 0 {
      WholeWeeks(d, n - 1);
      WorkDaysSplit(d, d + 7 * (n - 1) - 1, d + 7 * n - 1);
      SevenDaysFiveWorkDays(d + 7 * (n - 1));
    }
  }

  /** The period a report covers: a calendar month (given by its first and
      last day) or a picked range whose end may be missing. */
  datatype Period =
    | Monthly(firstDay: int, lastDay: int)
    | Picked(from: int, to: Option<int>)

  /** The picked range's end instant: a missing end means a one-day range. */
  function RangeEnd(p: Period): int
    requires p.Picked?
  {
    p.to.GetOr(p.from)
  }

  /** The first and last calendar day the working days are counted over. */
  function FirstDay(p: Period): int {
    if p.Monthly? then p.firstDay else DayOf(p.from)
  }

  function LastDay(p: Period): int {
    if p.Monthly? then p.lastDay else DayOf(RangeEnd(p))
  }

  function WorkDays(p: Period): nat {
    WorkDaysBetween(FirstDay(p), LastDay(p))
  }

  /** The instants passed to the store query, as the page computes them: the
      whole month, or the picked instants themselves. */
  function FetchWindowAsWritten(p: Period): (int, int) {
    if p.Monthly? then (DayStart(p.firstDay), DayEnd(p.lastDay)) else (p.from, RangeEnd(p))
  }

  /** The query window that covers every day whose working hours the report
      counts: from the start of the first day to the end of the last one. */
  function FetchWindow(p: Period): (w: (int, int))
    ensures forall t :: w.0 <= t <= w.1 <==> FirstDay(p) <= DayOf(t) <= LastDay(p)
  {
    assert forall t :: DayStart(DayOf(t)) <= t <= DayEnd(DayOf(t));
    DayOrderFacts();
    (DayStart(FirstDay(p)), DayEnd(LastDay(p)))
  }

  lemma DayOrderFacts()
    ensures forall t, d :: DayStart(d) <= t ==> d <= DayOf(t)
    ensures forall t, d :: t <= DayEnd(d) ==> DayOf(t) <= d
  {
    forall t, d | DayStart(d) <= t
      ensures d <= DayOf(t)
    {
    }
    forall t, d | t <= DayEnd(d)
      ensures DayOf(t) <= d
    {
    }
  }

  /** A picked one-day range on Thursday 1970-01-01 (a working day) misses
      a punch made at 09:00 that day: the query ends at the range's start. */
  lemma PickedRangeMissesLastDay()
    ensures var p := Picked(0, None);
      var t := 9 * 3_600_000;
      var w := FetchWindowAsWritten(p);
      WorkDays(p) == 1 && FirstDay(p) <= DayOf(t) <= LastDay(p) && !(w.0 <= t <= w.1)
  {
  }

  /** Which punches the report asks the store for. */
  function ReportUserId(signedInId: string, isManager: bool, selectedUserId: string): (id: string)
    ensures id == signedInId || id == selectedUserId
    ensures !isManager ==> id == signedInId
  {
    if isManager && selectedUserId != "" then selectedUserId else signedInId
  }

  /** loadReportData: the chosen user's punches inside the period's query
      window, sorted by time (the sort works in place on the fetched list). */
  method LoadReport(db: Database, signedInId: string, isManager: bool, selectedUserId: string, p: Period) returns (records: seq<TimeRecord>)
    requires db.Valid()
    ensures SortedByTime(records)
    ensures forall x :: (multiset(records)[x] ==
      if x in db.timeRecords.Values && x.userId == ReportUserId(signedInId, isManager, selectedUserId) && FirstDay(p) <= DayOf(x.timestamp) <= LastDay(p)
      then 1 else 0)
    ensures forall x :: x in records <==>
      x in db.timeRecords.Values && x.userId == ReportUserId(signedInId, isManager, selectedUserId) &&
      FirstDay(p) <= DayOf(x.timestamp) <= LastDay(p)
  {
    var userId := ReportUserId(signedInId, isManager, selectedUserId);
    var window := FetchWindow(p);
    var fetched := db.GetTimeRecordsByDate(userId, window.0, window.1);
    var a := new TimeRecord[|fetched|](i requires 0 <= i < |fetched| => fetched[i]);
    assert a[..] == fetched;
    SortRecords(a);
    records := a[..];
    SortByTimeSorted(fetched);
    SortByTimePermutes(fetched);
    assert multiset(records) == multiset(fetched);
  }

  /** The figures in the report's header cards. */
  datatype Summary = Summary(
    totalMinutes: int,
    daysWithRecords: nat,
    averageMinutes: real,
    workDays: nat,
    expectedMinutes: int,
    balanceMinutes: int)

  /** 8 hours (480 minutes) expected per working day. */
  const MinutesPerWorkDay: int := 480

  function Summarize(rs: seq<TimeRecord>, p: Period, now: int): (s: Summary)
    ensures s.totalMinutes == TotalMinutes(rs, now)
    ensures s.daysWithRecords == |DayKeys(rs)|
    ensures s.averageMinutes == AverageMinutes(s.totalMinutes, s.daysWithRecords)
    ensures s.workDays == WorkDays(p)
    ensures s.expectedMinutes == MinutesPerWorkDay * WorkDays(p)
    ensures s.balanceMinutes + s.expectedMinutes == s.totalMinutes
    ensures s.daysWithRecords == 0 ==> s.totalMinutes == 0 && s.averageMinutes == 0.0
  {
    var total := TotalMinutes(rs, now);
    var days := |DayKeys(rs)|;
    var expected := MinutesPerWorkDay * WorkDays(p);
    Summary(total, days, AverageMinutes(total, days), WorkDays(p), expected, total - expected)
  }

  // ---------------------------------------------------------------------
  // Hour formatting

  function Abs(m: int): nat {
    if m < 0 then -m else m
  }

  function SignPrefix(negative: bool, showSign: bool): string {
    if negative then "-" else if showSign then "+" else ""
  }

  /** " <M>min", or nothing when M is 0. */
  function MinuteSuffix(minutes: nat): string {
    if minutes > 0 then " " + NatToString(minutes) + "min" else ""
  }

  /** The text "<sign><H>h" followed by " <M>min" unless M is 0. */
  function Render(negative: bool, showSign: bool, hours: nat, minutes: nat): (s: string)
    ensures |s| >= 2
    ensures s[0] == '-' <==> negative
    ensures s[0] == '+' <==> !negative && showSign
    ensures !negative && !showSign ==> IsDigit(s[0])
    ensures s[|s| - 1] == 'h' <==> minutes == 0
  {
    var h := NatToString(hours);
    var s := SignPrefix(negative, showSign) + h + "h" + MinuteSuffix(minutes);
    assert SignPrefix(negative, showSign) == "" ==> s[0] == h[0];
    assert minutes > 0 ==> s[|s| - 1] == 'n';
    s
  }

  /** formatHours on a whole number of minutes. */
  function FormatMinutes(m: int, showSign: bool): (s: string)
    ensures |s| >= 2
    ensures m < 0 ==> s[0] == '-'
    ensures m >= 0 && showSign ==> s[0] == '+'
    ensures m >= 0 && !showSign ==> IsDigit(s[0])
    ensures (Abs(m) % 60 == 0) <==> s[|s| - 1] == 'h'
  {
    Render(m < 0, showSign, Abs(m) / 60, Abs(m) % 60)
  }

  /** Reads an optional " <M>min" back. */
  function ParseMinuteSuffix(tail: string): Option<nat> {
    if tail == [] then Some(0)
    else if |tail| >= 5 && tail[0] == ' ' && tail[|tail| - 3..] == "min" && DigitRun(tail[1..]) == |tail| - 4 then
      var digits := tail[1..|tail| - 3];
      assert digits == tail[1..][..|tail| - 4];
      Some(ParseNat(digits))
    else None
  }

  /** Reads "<H>h" plus an optional minute suffix back into (H, M). */
  function ParseUnsigned(body: string): Option<(nat, nat)> {
    var n := DigitRun(body);
    if n == 0 || n == |body| || body[n] != 'h' then None
    else
      match ParseMinuteSuffix(body[n + 1..])
      case None => None
      case Some(minutes) => Some((ParseNat(body[..n]), minutes))
  }

  /** Reads "<sign><H>h" or "<sign><H>h <M>min" back into (negative, H, M). */
  function ParseFields(s: string): Option<(bool, nat, nat)> {
    var negative := s != [] && s[0] == '-';
    var body := if s != [] && (s[0] == '-' || s[0] == '+') then s[1..] else s;
    match ParseUnsigned(body)
    case None => None
    case Some(f) => Some((negative, f.0, f.1))
  }

  /** The signed number of minutes a parsed text stands for. */
  function FieldsValue(f: (bool, nat, nat)): int {
    if f.0 then -(f.1 * 60 + f.2) else f.1 * 60 + f.2
  }

  /** " <digits>min" reads back as the digits' value. */
  lemma DigitsSuffixParses(mm: string)
    requires mm != [] && AllDigits(mm)
    ensures ParseMinuteSuffix([' '] + mm + "min") == Some(ParseNat(mm))
  {
    var tail := [' '] + mm + "min";
    assert tail[1..] == mm + "min";
    DigitRunOf(mm, "min");
    assert tail[|tail| - 3..] == "min";
    assert tail[1..|tail| - 3] == mm;
  }

  lemma MinuteSuffixParses(minutes: nat)
    ensures ParseMinuteSuffix(MinuteSuffix(minutes)) == Some(minutes)
  {
    if minutes > 0 {
      var mm := NatToString(minutes);
      assert MinuteSuffix(minutes) == [' '] + mm + "min";
      DigitsSuffixParses(mm);
      ParseNatToString(minutes);
    }
  }

  lemma UnsignedParses(hours: nat, minutes: nat)
    ensures ParseUnsigned(NatToString(hours) + "h" + MinuteSuffix(minutes)) == Some((hours, minutes))
  {
    var h := NatToString(hours);
    var tail := MinuteSuffix(minutes);
    var body := h + "h" + tail;
    assert body == h + ("h" + tail);
    DigitRunOf(h, "h" + tail);
    var n := DigitRun(body);
    assert n == |h| < |body| && body[n] == 'h';
    assert body[..n] == h;
    assert body[n + 1..] == tail;
    ParseNatToString(hours);
    MinuteSuffixParses(minutes);
    assert ParseMinuteSuffix(body[n + 1..]) == Some(minutes);
  }

  /** The sign the renderer puts in front is the one the reader strips. */
  lemma SignStrips(negative: bool, showSign: bool, body: string)
    requires body != [] && IsDigit(body[0])
    ensures var s := SignPrefix(negative, showSign) + body;
      && (s != [] && s[0] == '-') == negative
      && (if s != [] && (s[0] == '-' || s[0] == '+') then s[1..] else s) == body
  {
    var s := SignPrefix(negative, showSign) + body;
    if SignPrefix(negative, showSign) != "" {
      assert s[1..] == body;
    }
  }

  lemma RenderParses(negative: bool, showSign: bool, hours: nat, minutes: nat)
    ensures ParseFields(Render(negative, showSign, hours, minutes)) == Some((negative, hours, minutes))
  {
    var body := NatToString(hours) + "h" + MinuteSuffix(minutes);
    assert Render(negative, showSign, hours, minutes) == SignPrefix(negative, showSign) + body;
    assert body[0] == NatToString(hours)[0];
    SignStrips(negative, showSign, body);
    UnsignedParses(hours, minutes);
  }

  /** The text reads back as the same number of minutes, with a minute field
      below 60. */
  lemma FormatMinutesParses(m: int, showSign: bool)
    ensures ParseFields(FormatMinutes(m, showSign)).Some?
    ensures var f := ParseFields(FormatMinutes(m, showSign)).value;
      f.2 < 60 && FieldsValue(f) == m
  {
    RenderParses(m < 0, showSign, Abs(m) / 60, Abs(m) % 60);
  }

  /** Math.round: the nearest integer, halves rounded up. */
  function RoundHalfUp(x: real): int {
    (x + 0.5).Floor
  }

  /** formatHours as written, on a number of hours: the whole hours and the
      rounded minutes of the fractional part are computed separately. */
  function FormatHoursAsWritten(hours: real, showSign: bool): string {
    var absHours := if hours >= 0.0 then hours else -hours;
    var whole := absHours.Floor;
    var minutes := RoundHalfUp((absHours - whole as real) * 60.0);
    Render(hours < 0.0, showSign, if whole >= 0 then whole else 0, if minutes >= 0 then minutes else 0)
  }

  /** m minutes as hours: the sign, the whole hours and the rounded
      minutes of the fraction are those of the integer split. */
  lemma WholeMinutesAsHours(m: int)
    ensures var hours := m as real / 60.0;
      var absHours := if hours >= 0.0 then hours else -hours;
      && (hours < 0.0 <==> m < 0)
      && absHours.Floor == Abs(m) / 60
      && RoundHalfUp((absHours - absHours.Floor as real) * 60.0) == Abs(m) % 60
  {
    var a := Abs(m);
    var q, r := a / 60, a % 60;
    var hours := m as real / 60.0;
    var absHours := if hours >= 0.0 then hours else -hours;
    assert absHours == a as real / 60.0;
    assert absHours == q as real + r as real / 60.0;
    assert absHours.Floor == q;
    assert (absHours - q as real) * 60.0 == r as real;
    assert RoundHalfUp(r as real) == r;
  }

  /** On a whole number of minutes the page's formatter and the integer one
      print the same text. */
  lemma FormatAsWrittenOnWholeMinutes(m: int, showSign: bool)
    ensures FormatHoursAsWritten(m as real / 60.0, showSign) == FormatMinutes(m, showSign)
  {
    WholeMinutesAsHours(m);
  }


  /** 359 minutes over 3 days is 1.99444... hours: one whole hour and a
      fraction that rounds to 60 minutes. */
  lemma SixtyMinutesArithmetic()
    ensures var hours := AverageMinutes(359, 3) / 60.0;
      hours >= 0.0 && hours.Floor == 1 && RoundHalfUp((hours - 1.0) * 60.0) == 60
  {
    var hours := AverageMinutes(359, 3) / 60.0;
    assert hours == 359.0 / 180.0;
  }

  /** The average of 359 minutes over 3 days is printed "1h 60min". */
  lemma AverageCanShowSixtyMinutes()
    ensures FormatHoursAsWritten(AverageMinutes(359, 3) / 60.0, false) == "1h 60min"
    ensures ParseFields(FormatHoursAsWritten(AverageMinutes(359, 3) / 60.0, false)) == Some((false, 1, 60))
  {
    SixtyMinutesArithmetic();
    assert FormatHoursAsWritten(AverageMinutes(359, 3) / 60.0, false) == Render(false, false, 1, 60);
    RenderParses(false, false, 1, 60);
    SixtyMinutesText();
  }

  lemma SixtyMinutesText()
    ensures Render(false, false, 1, 60) == "1h 60min"
  {
    assert NatToString(60) == "60";
  }

  /** The average rounded to whole minutes before it is split into hours
      and minutes. */
  function FormatAverage(total: int, days: nat): (s: string) {
    FormatMinutes(RoundHalfUp(AverageMinutes(total, days)), false)
  }

  /** The average's text reads back as the rounded average, with a minute
      field below 60. */
  lemma FormatAverageParses(total: int, days: nat)
    ensures ParseFields(FormatAverage(total, days)).Some?
    ensures var f := ParseFields(FormatAverage(total, days)).value;
      f.2 < 60 && FieldsValue(f) == RoundHalfUp(AverageMinutes(total, days))
  {
    FormatMinutesParses(RoundHalfUp(AverageMinutes(total, days)), false);
  }

  /** The per-day badge: extra time above 8 hours, a deficit below. */
  function DayBalanceLabel(m: int): (s: string)
    ensures |s| > 0
    ensures s == "Jornada completa" <==> m == MinutesPerWorkDay
    ensures m > MinutesPerWorkDay ==> s[0] == '+'
    ensures m < MinutesPerWorkDay ==> s[0] == '-'
  {
    var full := "Jornada completa";
    if m > MinutesPerWorkDay then
      var s := "+" + FormatMinutes(m - MinutesPerWorkDay, false) + " extras";
      assert s[0] == '+' != full[0];
      s
    else if m < MinutesPerWorkDay then
      var s := FormatMinutes(m - MinutesPerWorkDay, false) + " de d\U{00E9}ficit";
      assert s[0] == '-' != full[0];
      s
    else full
  }
}
