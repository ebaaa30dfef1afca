// The punch page (src/pages/RegistroPonto.tsx): today's window and list, the
// record a button press builds and stores, and the type badge texts.

module PunchPage {
  import opened Basics
  import opened Model
  import opened Calendar
  import opened Text
  import opened RecordOrder
  import opened Store

  /** The first and last millisecond of the day `now` falls on (setHours to
      00:00:00.000 and to 23:59:59.999). */
  function TodayWindow(now: int): (w: (int, int))
    ensures w.1 - w.0 == MillisPerDay - 1
    ensures forall t :: w.0 <= t <= w.1 <==> SameDay(t, now)
  {
    var d := DayOf(now);
    forall t
      ensures DayStart(d) <= t <= DayEnd(d) <==> SameDay(t, now)
    {
      if DayStart(d) <= t <= DayEnd(d) {
        DayOfUnique(t, d);
      }
    }
    (DayStart(d), DayEnd(d))
  }

  /** loadTodayRecords: the user's punches of today, sorted ascending by
      time. */
  method LoadPunchList(db: Database, userId: string, now: int) returns (records: seq<TimeRecord>)
    requires db.Valid()
    ensures forall x :: multiset(records)[x] == if x in db.timeRecords.Values && x.userId == userId && SameDay(x.timestamp, now) then 1 else 0
    ensures forall x :: x in records <==> x in db.timeRecords.Values && x.userId == userId && SameDay(x.timestamp, now)
    ensures SortedByTime(records)
  {
    var window := TodayWindow(now);
    var fetched := db.GetTimeRecordsByDate(userId, window.0, window.1);
    var a := new TimeRecord[|fetched|](i requires 0 <= i < |fetched| => fetched[i]);
    assert a[..] == fetched;
    SortRecords(a);
    records := a[..];
    SortByTimeSorted(fetched);
    SortByTimePermutes(fetched);
    assert multiset(records) == multiset(fetched);
  }

  /** The location stored with a punch: the current one if known, otherwise
      the one a refresh returns (which may be none either). */
  function ChooseLocation(current: Option<Location>, refreshed: Option<Location>): (r: Option<Location>)
    ensures r.Some? <==> current.Some? || refreshed.Some?
    ensures current.Some? ==> r == current
    ensures current.None? ==> r == refreshed
  {
    if current.Some? then current else refreshed
  }

  /** The punch registerTime builds: id "<userId>-<now>", the user, the
      type asked for, the time now, the chosen location and an empty note. */
  function NewRecord(user: User, kind: PunchType, now: nat, location: Option<Location>): (r: TimeRecord)
    ensures r.userId == user.id && r.kind == kind && r.timestamp == now
    ensures r.location == location && r.note == Some("")
    ensures |r.id| > |user.id| + 1 && r.id[..|user.id|] == user.id && r.id[|user.id|] == '-'
    ensures AllDigits(r.id[|user.id| + 1..]) && ParseNat(r.id[|user.id| + 1..]) == now
  {
    var r := TimeRecord(user.id + "-" + NatToString(now), user.id, kind, now, location, Some(""));
    assert r.id[|user.id| + 1..] == NatToString(now);
    ParseNatToString(now);
    r
  }

  /** Two punches of one user made at different milliseconds get different
      ids, whatever their types. */
  lemma NewRecordIdsDistinct(user: User, k1: PunchType, k2: PunchType, t1: nat, t2: nat, l1: Option<Location>, l2: Option<Location>)
    requires t1 != t2
    ensures NewRecord(user, k1, t1, l1).id != NewRecord(user, k2, t2, l2).id
  {
  }

  /** registerTime: without a signed-in user nothing happens. Otherwise the
      punch is stored, whatever its type and whatever was punched before,
      unless its id is taken; after a stored punch the list is reloaded. */
  method RegisterTime(db: Database, user: Option<User>, kind: PunchType, now: nat,
                      current: Option<Location>, refreshed: Option<Location>)
    returns (created: Option<TimeRecord>, list: Option<seq<TimeRecord>>)
    requires db.Valid()
    modifies db
    ensures db.Valid()
    ensures db.users == old(db.users) && db.workSchedules == old(db.workSchedules)
    ensures user.None? ==> created.None? && list.None? && db.timeRecords == old(db.timeRecords)
    ensures user.Some? ==>
      (created.Some? <==> NewRecord(user.value, kind, now, ChooseLocation(current, refreshed)).id !in old(db.timeRecords))
    ensures created.Some? ==>
      && created.value == NewRecord(user.value, kind, now, ChooseLocation(current, refreshed))
      && db.timeRecords == old(db.timeRecords)[created.value.id := created.value]
      && list.Some? && SortedByTime(list.value)
      && (forall x :: x in list.value <==> x in db.timeRecords.Values && x.userId == user.value.id && SameDay(x.timestamp, now))
      && created.value in list.value
    ensures created.None? ==> list.None? && db.timeRecords == old(db.timeRecords)
  {
    if user.None? {
      return None, None;
    }
    var record := NewRecord(user.value, kind, now, ChooseLocation(current, refreshed));
    var ok := db.CreateTimeRecord(record);
    if !ok {
      return None, None;
    }
    created := Some(record);
    var records := LoadPunchList(db, user.value.id, now);
    assert record in db.timeRecords.Values by {
      assert db.timeRecords[record.id] == record;
    }
    list := Some(records);
  }

  /** getTypeLabel: a stored type string that is not one of the four is
      shown as it is. */
  function TypeLabel(t: string): (l: string)
    ensures ParsePunchType(t).None? ==> l == t
  {
    if t == "check-in" then "Entrada"
    else if t == "check-out" then "Sa\U{00ED}da"
    else if t == "break-start" then "In\U{00ED}cio de intervalo"
    else if t == "break-end" then "Fim de intervalo"
    else t
  }

  const Gray: string := "bg-gray-100 text-gray-800"

  /** getTypeColor: any other string gets the gray badge. */
  function TypeColor(t: string): (c: string)
    ensures ParsePunchType(t).None? ==> c == Gray
  {
    if t == "check-in" then "bg-green-100 text-green-800"
    else if t == "check-out" then "bg-red-100 text-red-800"
    else if t == "break-start" then "bg-yellow-100 text-yellow-800"
    else if t == "break-end" then "bg-blue-100 text-blue-800"
    else Gray
  }

  /** The four types get four different labels and four different colours,
      none of them the gray of an unknown type. */
  lemma TypeBadgesDistinct(k1: PunchType, k2: PunchType)
    ensures TypeLabel(PunchTypeName(k1)) == TypeLabel(PunchTypeName(k2)) <==> k1 == k2
    ensures TypeColor(PunchTypeName(k1)) == TypeColor(PunchTypeName(k2)) <==> k1 == k2
    ensures TypeColor(PunchTypeName(k1)) != Gray
  {
  }
}
