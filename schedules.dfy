// The schedules page (src/pages/Escalas.tsx): "HH:MM" times compared as
// strings, the save dialog's validations, the one-schedule-per-weekday check,
// the records the dialog builds, and the weekly table's weekday lookup.

module Schedules {
  import opened Basics
  import opened Model
  import opened Text
  import opened Store

  // ---------------------------------------------------------------------
  // "HH:MM" times

  /** A zero-padded 24-hour time as an <input type="time"> yields it. */
  predicate IsClockTime(s: string) {
    && |s| == 5
    && IsDigit(s[0]) && IsDigit(s[1]) && s[2] == ':' && IsDigit(s[3]) && IsDigit(s[4])
    && (s[0] < '2' || (s[0] == '2' && s[1] <= '3'))
    && s[3] <= '5'
  }

  /** Minutes since midnight. */
  function ClockMinutes(s: string): (m: int)
    requires IsClockTime(s)
    ensures 0 <= m < 24 * 60
  {
    (DigitValue(s[0]) * 10 + DigitValue(s[1])) * 60 + DigitValue(s[3]) * 10 + DigitValue(s[4])
  }

  /** The string order on two five-character strings, spelled out position
      by position. */
  lemma StrLessOfFive(a: string, b: string)
    requires |a| == 5 && |b| == 5
    ensures StrLess(a, b) <==>
      a[0] < b[0] || (a[0] == b[0] &&
      (a[1] < b[1] || (a[1] == b[1] &&
      (a[2] < b[2] || (a[2] == b[2] &&
      (a[3] < b[3] || (a[3] == b[3] && a[4] < b[4])))))))
  {
    assert a[1..][1..] == a[2..] && b[1..][1..] == b[2..];
    assert a[2..][1..] == a[3..] && b[2..][1..] == b[3..];
    assert a[3..][1..] == a[4..] && b[3..][1..] == b[4..];
    assert StrLess(a, b) == if a[0] != b[0] then a[0] < b[0] else StrLess(a[1..], b[1..]);
    assert StrLess(a[1..], b[1..]) == if a[1] != b[1] then a[1] < b[1] else StrLess(a[2..], b[2..]);
    assert StrLess(a[2..], b[2..]) == if a[2] != b[2] then a[2] < b[2] else StrLess(a[3..], b[3..]);
    assert StrLess(a[3..], b[3..]) == if a[3] != b[3] then a[3] < b[3] else StrLess(a[4..], b[4..]);
    assert StrLess(a[4..], b[4..]) == if a[4] != b[4] then a[4] < b[4] else StrLess(a[4..][1..], b[4..][1..]);
    assert a[4..][1..] == [] && b[4..][1..] == [];
  }

  /** For zero-padded times the string order the page compares with is the
      order of the times of day. */
  lemma ClockOrder(a: string, b: string)
    requires IsClockTime(a) && IsClockTime(b)
    ensures StrLess(a, b) <==> ClockMinutes(a) < ClockMinutes(b)
  {
    StrLessOfFive(a, b);
  }

  // ---------------------------------------------------------------------
  // The dialog and its save

  /** The dialog's fields; an empty break field is "". */
  datatype ScheduleForm = ScheduleForm(weekDay: int, startTime: string, endTime: string, breakStart: string, breakEnd: string)

  /** What handleSaveSchedule does with a form. */
  datatype SaveOutcome =
    | InvalidTimes
    | InvalidBreak
    | SlotTaken
    | Update(schedule: WorkSchedule)
    | Create(schedule: WorkSchedule)

  /** The dialog's fields when it is opened to add a schedule. */
  function AddDialogDefaults(): ScheduleForm {
    ScheduleForm(1, "08:00", "17:00", "12:00", "13:00")
  }

  /** The dialog's fields when it is opened on an existing schedule: an
      absent break becomes "". */
  function EditDialogForm(s: WorkSchedule): ScheduleForm {
    ScheduleForm(s.weekDay, s.startTime, s.endTime, s.breakStart.GetOr(""), s.breakEnd.GetOr(""))
  }

  /** `field || undefined`: an empty field is stored as absent. */
  function OptionalText(field: string): (r: Option<string>)
    ensures r.None? <==> field == ""
    ensures r.Some? ==> r.value == field
  {
    if field == "" then None else Some(field)
  }

  /** The first test: the start must come strictly before the end. */
  predicate TimesValid(f: ScheduleForm) {
    StrLess(f.startTime, f.endTime)
  }

  /** The second test, applied only when both break fields are filled in:
      start < break start < break end < end. */
  predicate BreakValid(f: ScheduleForm) {
    f.breakStart != "" && f.breakEnd != "" ==>
      StrLess(f.startTime, f.breakStart) && StrLess(f.breakStart, f.breakEnd) && StrLess(f.breakEnd, f.endTime)
  }

  /** `schedules.find(...)`: the first schedule of the list with this weekday
      and user. */
  function FindSlot(schedules: seq<WorkSchedule>, weekDay: int, userId: string): (r: Option<WorkSchedule>)
    ensures r.None? <==> forall i :: 0 <= i < |schedules| ==> !(schedules[i].weekDay == weekDay && schedules[i].userId == userId)
    ensures r.Some? ==> r.value in schedules && r.value.weekDay == weekDay && r.value.userId == userId
    decreases |schedules|
  {
    if schedules == [] then None
    else if schedules[0].weekDay == weekDay && schedules[0].userId == userId then Some(schedules[0])
    else
      var r := FindSlot(schedules[1..], weekDay, userId);
      assert forall i :: 1 <= i < |schedules| ==> schedules[i] == schedules[1..][i - 1];
      r
  }

  /** handleSaveSchedule up to the store write. `mySchedules` is the page's
      `schedules` list (the signed-in user's), `editing` the schedule the
      dialog was opened on, `newId` the id a new schedule gets. */
  function PlanSave(f: ScheduleForm, editing: Option<WorkSchedule>, mySchedules: seq<WorkSchedule>, targetUserId: string, newId: string): (r: SaveOutcome)
    ensures r == InvalidTimes <==> !TimesValid(f)
    ensures r == InvalidBreak <==> TimesValid(f) && !BreakValid(f)
    ensures r == SlotTaken <==> TimesValid(f) && BreakValid(f) && editing.None? && FindSlot(mySchedules, f.weekDay, targetUserId).Some?
    ensures r.Update? <==> TimesValid(f) && BreakValid(f) && editing.Some?
    ensures r.Update? ==> r.schedule.id == editing.value.id && r.schedule.userId == editing.value.userId
    ensures r.Create? ==> r.schedule.id == newId && r.schedule.userId == targetUserId
    ensures r.Update? || r.Create? ==>
      && r.schedule.weekDay == f.weekDay && r.schedule.startTime == f.startTime && r.schedule.endTime == f.endTime
      && r.schedule.breakStart == OptionalText(f.breakStart) && r.schedule.breakEnd == OptionalText(f.breakEnd)
  {
    if !TimesValid(f) then InvalidTimes
    else if !BreakValid(f) then InvalidBreak
    else if FindSlot(mySchedules, f.weekDay, targetUserId).Some? && editing.None? then SlotTaken
    else if editing.Some? then
      Update(editing.value.(weekDay := f.weekDay, startTime := f.startTime, endTime := f.endTime,
        breakStart := OptionalText(f.breakStart), breakEnd := OptionalText(f.breakEnd)))
    else
      Create(WorkSchedule(newId, targetUserId, f.weekDay, f.startTime, f.endTime, OptionalText(f.breakStart), OptionalText(f.breakEnd)))
  }

  /** An accepted form's times, read as times of day, are in order: start
      before end, and a filled-in break strictly inside. */
  lemma AcceptedTimesInOrder(f: ScheduleForm, editing: Option<WorkSchedule>, mySchedules: seq<WorkSchedule>, targetUserId: string, newId: string)
    requires IsClockTime(f.startTime) && IsClockTime(f.endTime)
    requires f.breakStart != "" ==> IsClockTime(f.breakStart)
    requires f.breakEnd != "" ==> IsClockTime(f.breakEnd)
    requires PlanSave(f, editing, mySchedules, targetUserId, newId).Update? || PlanSave(f, editing, mySchedules, targetUserId, newId).Create?
    ensures ClockMinutes(f.startTime) < ClockMinutes(f.endTime)
    ensures f.breakStart != "" && f.breakEnd != "" ==>
      ClockMinutes(f.startTime) < ClockMinutes(f.breakStart) < ClockMinutes(f.breakEnd) < ClockMinutes(f.endTime)
  {
    ClockOrder(f.startTime, f.endTime);
    if f.breakStart != "" && f.breakEnd != "" {
      ClockOrder(f.startTime, f.breakStart);
      ClockOrder(f.breakStart, f.breakEnd);
      ClockOrder(f.breakEnd, f.endTime);
    }
  }

  /** The add dialog's defaults pass both tests and, on a list without a
      Monday for the target, create a Monday 08:00-17:00 schedule with a
      12:00-13:00 break. */
  lemma AddDefaultsAccepted(mySchedules: seq<WorkSchedule>, targetUserId: string, newId: string)
    requires FindSlot(mySchedules, 1, targetUserId).None?
    ensures PlanSave(AddDialogDefaults(), None, mySchedules, targetUserId, newId) ==
      Create(WorkSchedule(newId, targetUserId, 1, "08:00", "17:00", Some("12:00"), Some("13:00")))
  {
    var f := AddDialogDefaults();
    assert TimesValid(f) by { StrLessOfFive(f.startTime, f.endTime); }
    assert BreakValid(f) by {
      StrLessOfFive(f.startTime, f.breakStart);
      StrLessOfFive(f.breakStart, f.breakEnd);
      StrLessOfFive(f.breakEnd, f.endTime);
    }
  }

  /** Opening the edit dialog on a schedule and saving it unchanged writes
      the same schedule back (the weekday field is locked while editing). */
  lemma EditRoundTrip(s: WorkSchedule, mySchedules: seq<WorkSchedule>, targetUserId: string, newId: string)
    requires TimesValid(EditDialogForm(s)) && BreakValid(EditDialogForm(s))
    requires s.breakStart != Some("") && s.breakEnd != Some("")
    ensures PlanSave(EditDialogForm(s), Some(s), mySchedules, targetUserId, newId) == Update(s)
  {
  }

  /** On the team tab the target is another user, while the duplicate check
      looks only at the signed-in user's own list: it never reports a taken
      slot there. */
  lemma TeamTabNeverSlotTaken(f: ScheduleForm, mySchedules: seq<WorkSchedule>, me: string, targetUserId: string, newId: string)
    requires forall i :: 0 <= i < |mySchedules| ==> mySchedules[i].userId == me
    requires targetUserId != me
    ensures PlanSave(f, None, mySchedules, targetUserId, newId) != SlotTaken
  {
  }

  /** The user the dialog saves for: the signed-in user on the "mySchedule"
      tab, the selected team member otherwise. */
  function TargetUser(signedInId: string, onMyTab: bool, selectedUserId: string): (id: string)
    ensures onMyTab ==> id == signedInId
    ensures !onMyTab ==> id == selectedUserId
  {
    if onMyTab then signedInId else selectedUserId
  }

  /** handleSaveSchedule: nothing happens without a signed-in user; a form
      that fails a test or a taken slot writes nothing; otherwise the
      schedule is written with `put` (editing) or `add` (new, id
      "schedule-<now>"), and `saved` says whether the store accepted it. */
  method HandleSaveSchedule(db: Database, signedIn: Option<string>, f: ScheduleForm, editing: Option<WorkSchedule>,
                            mySchedules: seq<WorkSchedule>, onMyTab: bool, selectedUserId: string, now: nat)
    returns (outcome: Option<SaveOutcome>, saved: bool)
    requires db.Valid()
    modifies db
    ensures db.Valid()
    ensures signedIn.None? ==> outcome.None?
    ensures signedIn.Some? ==> outcome == Some(PlanSave(f, editing, mySchedules, TargetUser(signedIn.value, onMyTab, selectedUserId), "schedule-" + NatToString(now)))
    ensures db.users == old(db.users) && db.timeRecords == old(db.timeRecords)
    ensures saved ==> outcome.Some? && (outcome.value.Update? || outcome.value.Create?)
    ensures saved ==> db.workSchedules == old(db.workSchedules)[outcome.value.schedule.id := outcome.value.schedule]
    ensures !saved ==> db.workSchedules == old(db.workSchedules)
    ensures outcome.Some? && outcome.value.Create? ==>
      (saved <==> (outcome.value.schedule.id !in old(db.workSchedules) &&
                   SlotFree(old(db.workSchedules), outcome.value.schedule.userId, outcome.value.schedule.weekDay, outcome.value.schedule.id)))
    ensures outcome.Some? && outcome.value.Update? ==>
      (saved <==> SlotFree(old(db.workSchedules), outcome.value.schedule.userId, outcome.value.schedule.weekDay, outcome.value.schedule.id))
  {
    if signedIn.None? {
      return None, false;
    }
    var target := TargetUser(signedIn.value, onMyTab, selectedUserId);
    var plan := PlanSave(f, editing, mySchedules, target, "schedule-" + NatToString(now));
    outcome := Some(plan);
    saved := false;
    match plan {
      case Update(s) =>
        saved := db.UpdateWorkSchedule(s);
      case Create(s) =>
        saved := db.CreateWorkSchedule(s);
      case _ =>
    }
  }

  /** handleDeleteSchedule: removes the schedule's key, when someone is
      signed in. */
  method HandleDeleteSchedule(db: Database, signedIn: Option<string>, s: WorkSchedule)
    requires db.Valid()
    modifies db
    ensures db.Valid()
    ensures db.workSchedules == if signedIn.Some? then old(db.workSchedules) - {s.id} else old(db.workSchedules)
    ensures db.users == old(db.users) && db.timeRecords == old(db.timeRecords)
  {
    if signedIn.Some? {
      db.DeleteWorkSchedule(s.id);
    }
  }

  // ---------------------------------------------------------------------
  // The weekly table

  /** The table's rows: Monday (1) .. Saturday (6), then Sunday (0). */
  const WeekDayOrder: seq<int> := [1, 2, 3, 4, 5, 6, 0]

  function WeekDayLabel(d: int): string {
    if d == 1 then "Segunda-feira"
    else if d == 2 then "Ter\U{00E7}a-feira"
    else if d == 3 then "Quarta-feira"
    else if d == 4 then "Quinta-feira"
    else if d == 5 then "Sexta-feira"
    else if d == 6 then "S\U{00E1}bado"
    else "Domingo"
  }

  /** `schedules.find(s => s.weekDay === day)`. */
  function FirstWithWeekDay(schedules: seq<WorkSchedule>, day: int): (r: Option<WorkSchedule>)
    ensures r.None? <==> forall i :: 0 <= i < |schedules| ==> schedules[i].weekDay != day
    ensures r.Some? ==> r.value.weekDay == day
    ensures r.Some? ==> exists i :: (0 <= i < |schedules| && schedules[i] == r.value && forall j :: 0 <= j < i ==> schedules[j].weekDay != day)
    decreases |schedules|
  {
    if schedules == [] then None
    else if schedules[0].weekDay == day then
      assert schedules[0] == schedules[0];
      Some(schedules[0])
    else
      var r := FirstWithWeekDay(schedules[1..], day);
      assert forall i :: 1 <= i < |schedules| ==> schedules[i] == schedules[1..][i - 1];
      if r.Some? then
        var i :| 0 <= i < |schedules[1..]| && schedules[1..][i] == r.value && r.value.weekDay == day &&
          forall j :: 0 <= j < i ==> schedules[1..][j].weekDay != day;
        assert schedules[i + 1] == r.value;
        r
      else r
  }

  /** What the table shows: one row per weekday in table order, holding the
      first schedule for that weekday if any. */
  function WeeklyRows(schedules: seq<WorkSchedule>): (rows: seq<(int, Option<WorkSchedule>)>)
    ensures |rows| == 7
    ensures forall i :: 0 <= i < 7 ==> rows[i].0 == WeekDayOrder[i]
  {
    seq(7, i requires 0 <= i < 7 => (WeekDayOrder[i], FirstWithWeekDay(schedules, WeekDayOrder[i])))
  }

  /** Every weekday 0..6 has exactly one row, and a schedule whose weekday is
      in range shows up in its row (or an earlier one of the same weekday
      does). */
  lemma WeeklyRowsCoverWeek(schedules: seq<WorkSchedule>, s: WorkSchedule)
    requires s in schedules && 0 <= s.weekDay <= 6
    ensures exists i :: 0 <= i < 7 && WeeklyRows(schedules)[i].0 == s.weekDay && WeeklyRows(schedules)[i].1.Some?
    ensures forall i, j :: 0 <= i < j < 7 ==> WeeklyRows(schedules)[i].0 != WeeklyRows(schedules)[j].0
  {
    var rows := WeeklyRows(schedules);
    var i := if s.weekDay == 0 then 6 else s.weekDay - 1;
    assert rows[i].0 == s.weekDay;
  }
}
