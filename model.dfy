// The records kept by the local database (src/services/db.ts) and the
// calendar arithmetic the pages apply to their timestamps.

module Model {
  import opened Basics

  datatype Role = Admin | Manager | Employee

  /** The string stored in `User.role`. */
  function RoleName(r: Role): string {
    match r
    case Admin => "admin"
    case Manager => "manager"
    case Employee => "employee"
  }

  datatype PunchType = CheckIn | CheckOut | BreakStart | BreakEnd

  /** The string stored in `TimeRecord.type`. */
  function PunchTypeName(k: PunchType): string {
    match k
    case CheckIn => "check-in"
    case CheckOut => "check-out"
    case BreakStart => "break-start"
    case BreakEnd => "break-end"
  }

  /** Reads a stored type string back; every other string is rejected. */
  function ParsePunchType(s: string): (k: Option<PunchType>)
    ensures k.Some? ==> PunchTypeName(k.value) == s
    ensures forall t :: PunchTypeName(t) == s ==> k == Some(t)
  {
    if s == "check-in" then Some(CheckIn)
    else if s == "check-out" then Some(CheckOut)
    else if s == "break-start" then Some(BreakStart)
    else if s == "break-end" then Some(BreakEnd)
    else None
  }

  /** A geolocation snapshot; its numbers are carried, never computed on. */
  datatype Location = Location(latitude: real, longitude: real, accuracy: real)

  datatype User = User(
    id: string,
    name: string,
    email: string,
    password: string,
    role: Role,
    avatar: Option<string>,
    createdAt: int)

  /** A punch. `timestamp` is in milliseconds since the epoch. */
  datatype TimeRecord = TimeRecord(
    id: string,
    userId: string,
    kind: PunchType,
    timestamp: int,
    location: Option<Location>,
    note: Option<string>)

  /** One weekly slot: weekDay is 0 (Sunday) .. 6 (Saturday), times are "HH:MM". */
  datatype WorkSchedule = WorkSchedule(
    id: string,
    userId: string,
    weekDay: int,
    startTime: string,
    endTime: string,
    breakStart: Option<string>,
    breakEnd: Option<string>)
}

module Calendar {
  const MillisPerMinute: int := 60_000
  const MillisPerDay: int := 86_400_000

  /** First and last millisecond of day number d. */
  function DayStart(d: int): int {
    d * MillisPerDay
  }

  function DayEnd(d: int): int {
    DayStart(d) + MillisPerDay - 1
  }

  /** The calendar day (days since the epoch) an instant falls on. */
  function DayOf(t: int): (d: int)
    ensures DayStart(d) <= t <= DayEnd(d)
  {
    t / MillisPerDay
  }

  lemma DayOfUnique(t: int, d: int)
    requires DayStart(d) <= t <= DayEnd(d)
    ensures DayOf(t) == d
  {
  }

  /** date-fns isSameDay. */
  predicate SameDay(a: int, b: int) {
    DayOf(a) == DayOf(b)
  }

  /** Date.prototype.getDay of a day: 0 is Sunday, 6 is Saturday
      (day 0, 1970-01-01, was a Thursday). */
  function Weekday(d: int): (w: int)
    ensures 0 <= w < 7
  {
    (d + 4) % 7
  }

  /** date-fns differenceInMinutes(later, earlier): whole minutes between the
      two instants, truncated toward zero. */
  function DiffMinutes(later: int, earlier: int): (m: int)
    ensures later >= earlier ==> 0 <= m && m * MillisPerMinute <= later - earlier < (m + 1) * MillisPerMinute
    ensures later < earlier ==> m <= 0 && -m * MillisPerMinute <= earlier - later < (-m + 1) * MillisPerMinute
  {
    var d := later - earlier;
    if d >= 0 then d / MillisPerMinute else -((-d) / MillisPerMinute)
  }
}
