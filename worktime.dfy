// The worked-time state machine shared by the report page and the dashboard:
// punches are read in order with an "open since" cursor; a check-in or a
// break-end opens a session, a check-out or a break-start closes the open one
// and adds the whole minutes it lasted.

module WorkedTime {
  import opened Basics
  import opened Model
  import opened Calendar
  import opened RecordOrder

  /** The loop state: minutes accumulated so far and the open session's start. */
  datatype Tally = Tally(minutes: int, openSince: Option<int>)

  /** Punches that start a session. Every other punch ends one. */
  predicate Opens(k: PunchType) {
    k == CheckIn || k == BreakEnd
  }

  /** One iteration of the loop. A closing punch without an open session is
      ignored; an opening punch replaces any session already open. */
  function Step(t: Tally, r: TimeRecord): Tally {
    match r.kind
    case CheckIn => Tally(t.minutes, Some(r.timestamp))
    case BreakEnd => Tally(t.minutes, Some(r.timestamp))
    case CheckOut | BreakStart =>
      if t.openSince.Some? then Tally(t.minutes + DiffMinutes(r.timestamp, t.openSince.value), None)
      else t
  }

  /** The loop run over a whole list, starting with nothing open. */
  function Scan(rs: seq<TimeRecord>): Tally
    decreases |rs|
  {
    if rs == [] then Tally(0, None) else Step(Scan(rs[..|rs| - 1]), rs[|rs| - 1])
  }

  // An independent description of what the loop computes: since every punch
  // either opens or closes, a session is exactly an opening punch immediately
  // followed by a closing one.

  /** Sum of the lengths of the adjacent (opening, closing) pairs. */
  function PairedMinutes(rs: seq<TimeRecord>): int
    decreases |rs|
  {
    if |rs| < 2 then 0
    else
      var a, b := rs[|rs| - 2], rs[|rs| - 1];
      PairedMinutes(rs[..|rs| - 1]) + (if Opens(a.kind) && !Opens(b.kind) then DiffMinutes(b.timestamp, a.timestamp) else 0)
  }

  /** The session left open: the last punch, if it opens one. */
  function LastOpen(rs: seq<TimeRecord>): Option<int> {
    if rs != [] && Opens(rs[|rs| - 1].kind) then Some(rs[|rs| - 1].timestamp) else None
  }

  /** The loop adds exactly the adjacent opening/closing pairs and leaves open
      exactly a trailing opening punch. */
  lemma {:induction false} ScanIsAdjacentPairs(rs: seq<TimeRecord>)
    ensures Scan(rs) == Tally(PairedMinutes(rs), LastOpen(rs))
    decreases |rs|
  {
    if rs != [] {
      var init := rs[..|rs| - 1];
      ScanIsAdjacentPairs(init);
      if |rs| >= 2 {
        assert init[|init| - 1] == rs[|rs| - 2];
      }
    }
  }

  /** On a list in time order the loop never adds a negative amount, and the
      open session (if any) starts at the last punch. */
  lemma {:induction false} ScanNonNegative(rs: seq<TimeRecord>)
    requires SortedByTime(rs)
    ensures Scan(rs).minutes >= 0
    ensures Scan(rs).openSince.Some? ==> rs != [] && Scan(rs).openSince.value == rs[|rs| - 1].timestamp
    decreases |rs|
  {
    if rs != [] {
      var init := rs[..|rs| - 1];
      assert SortedByTime(init);
      ScanNonNegative(init);
    }
  }

  /** On a list in time order the minutes counted never exceed the time that
      passed between the first and the last punch. */
  lemma {:induction false} ScanWithinSpan(rs: seq<TimeRecord>)
    requires SortedByTime(rs) && rs != []
    ensures Scan(rs).minutes * MillisPerMinute <= rs[|rs| - 1].timestamp - rs[0].timestamp
    decreases |rs|
  {
    if |rs| >= 2 {
      var init := rs[..|rs| - 1];
      assert SortedByTime(init);
      ScanWithinSpan(init);
      ScanNonNegative(init);
      assert init[0] == rs[0];
    }
  }

  /** src/pages/Relatorios.tsx calculateDayHours, in minutes: the loop over
      the punches sorted by time, plus the open session up to `now` when it
      started on the same calendar day as `now`. */
  function DayMinutes(rs: seq<TimeRecord>, now: int): (m: int)
    ensures rs == [] ==> m == 0
    ensures AllAtMost(rs, now) ==> m >= 0
  {
    if rs == [] then 0
    else
      var sorted := SortByTime(rs);
      var t := Scan(sorted);
      SortByTimeSorted(rs);
      SortByTimePermutes(rs);
      ScanNonNegative(sorted);
      SortKeepsBound(rs, now);
      if t.openSince.Some? && SameDay(t.openSince.value, now) then
        t.minutes + DiffMinutes(now, t.openSince.value)
      else
        t.minutes
  }

  /** With pairwise-distinct timestamps the day's minutes do not depend on
      the order the punches arrive in. */
  lemma DayMinutesOrderIndependent(a: seq<TimeRecord>, b: seq<TimeRecord>, now: int)
    requires multiset(a) == multiset(b)
    requires TimesIdentify(multiset(a))
    ensures DayMinutes(a, now) == DayMinutes(b, now)
  {
    SortIgnoresInputOrder(a, b);
    if a == [] {
      assert |multiset(b)| == 0;
    } else {
      assert a[0] in multiset(b);
    }
  }

  /** The open session of a sorted scan starts at one of the punches. */
  lemma OpenSinceIsAPunch(rs: seq<TimeRecord>)
    ensures Scan(SortByTime(rs)).openSince.Some? ==>
      exists r :: r in rs && r.timestamp == Scan(SortByTime(rs)).openSince.value
  {
    var sorted := SortByTime(rs);
    ScanIsAdjacentPairs(sorted);
    SortByTimePermutes(rs);
    if sorted != [] && Opens(sorted[|sorted| - 1].kind) {
      assert sorted[|sorted| - 1] in multiset(rs);
    }
  }

  /** The loop as the pages write it, over an index with two variables. */
  method ScanRecords(rs: seq<TimeRecord>) returns (totalMinutes: int, checkInTime: Option<int>)
    ensures Tally(totalMinutes, checkInTime) == Scan(rs)
  {
    totalMinutes, checkInTime := 0, None;
    for i := 0 to |rs|
      invariant Tally(totalMinutes, checkInTime) == Scan(rs[..i])
    {
      assert rs[..i + 1][..i] == rs[..i];
      var record := rs[i];
      if record.kind == CheckIn {
        checkInTime := Some(record.timestamp);
      } else if record.kind == CheckOut && checkInTime.Some? {
        totalMinutes := totalMinutes + DiffMinutes(record.timestamp, checkInTime.value);
        checkInTime := None;
      } else if record.kind == BreakStart && checkInTime.Some? {
        totalMinutes := totalMinutes + DiffMinutes(record.timestamp, checkInTime.value);
        checkInTime := None;
      } else if record.kind == BreakEnd {
        checkInTime := Some(record.timestamp);
      }
    }
    assert rs[..|rs|] == rs;
  }

  /** calculateDayHours itself: sorts the caller's array in place, then scans. */
  method CalculateDayHours(records: array<TimeRecord>, now: int) returns (minutes: int)
    modifies records
    ensures records[..] == SortByTime(old(records[..]))
    ensures minutes == DayMinutes(old(records[..]), now)
  {
    if records.Length == 0 {
      return 0;
    }
    SortRecords(records);
    var total, checkInTime := ScanRecords(records[..]);
    minutes := total;
    if checkInTime.Some? && SameDay(checkInTime.value, now) {
      minutes := minutes + DiffMinutes(now, checkInTime.value);
    }
  }

  // The worked examples of the calculator, on day 0 (times in milliseconds).

  function At(kind: PunchType, hour: int, minute: int): TimeRecord {
    TimeRecord("", "", kind, hour * 3_600_000 + minute * MillisPerMinute, None, None)
  }

  lemma BalancedSession()
    ensures DayMinutes([At(CheckIn, 9, 0), At(CheckOut, 17, 0)], At(CheckOut, 18, 0).timestamp) == 480
  {
    var rs := [At(CheckIn, 9, 0), At(CheckOut, 17, 0)];
    SortSortedIsIdentity(rs);
    ScanIsAdjacentPairs(rs);
    assert PairedMinutes(rs[..1]) == 0;
    assert DiffMinutes(rs[1].timestamp, rs[0].timestamp) == 480;
  }

  lemma BreakExcluded()
    ensures DayMinutes([At(CheckIn, 9, 0), At(BreakStart, 12, 0), At(BreakEnd, 13, 0), At(CheckOut, 17, 0)], 18 * 3_600_000) == 420
  {
    var rs := [At(CheckIn, 9, 0), At(BreakStart, 12, 0), At(BreakEnd, 13, 0), At(CheckOut, 17, 0)];
    SortSortedIsIdentity(rs);
    BreakDayScan();
  }

  /** The loop over the day with a break: 180 minutes before it, 240 after. */
  lemma BreakDayScan()
    ensures Scan([At(CheckIn, 9, 0), At(BreakStart, 12, 0), At(BreakEnd, 13, 0), At(CheckOut, 17, 0)]) == Tally(420, None)
  {
    var rs := [At(CheckIn, 9, 0), At(BreakStart, 12, 0), At(BreakEnd, 13, 0), At(CheckOut, 17, 0)];
    ScanIsAdjacentPairs(rs);
    assert rs[..3][..2] == rs[..2] && rs[..2][..1] == rs[..1];
    assert PairedMinutes(rs[..1]) == 0;
    assert PairedMinutes(rs[..2]) == 180;
    assert PairedMinutes(rs[..3]) == 180;
  }

  /** An open session counts up to `now` on its own day and not at all later. */
  lemma OpenSessionToday()
    ensures DayMinutes([At(CheckIn, 9, 0)], 10 * 3_600_000 + 30 * MillisPerMinute) == 90
    ensures DayMinutes([At(CheckIn, 9, 0)], MillisPerDay + 10 * 3_600_000) == 0
  {
    SortSortedIsIdentity([At(CheckIn, 9, 0)]);
  }

  lemma OrphanCheckOut()
    ensures DayMinutes([At(CheckOut, 17, 0)], 18 * 3_600_000) == 0
  {
    SortSortedIsIdentity([At(CheckOut, 17, 0)]);
  }
}
