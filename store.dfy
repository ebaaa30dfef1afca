// The local database (src/services/db.ts): three keyed tables (users, punches
// and weekly schedules). `add` refuses an existing key, `put` inserts or
// overwrites, and both refuse a write that would break a unique index
// (email for users, (userId, weekDay) for schedules).

module Store {
  import opened Basics
  import opened Model
  import opened Seqs
  import opened Text

  // ---------------------------------------------------------------------
  // Table constraints

  predicate UsersKeyed(users: map<string, User>) {
    forall k :: k in users ==> users[k].id == k
  }

  predicate RecordsKeyed(records: map<string, TimeRecord>) {
    forall k :: k in records ==> records[k].id == k
  }

  predicate SchedulesKeyed(schedules: map<string, WorkSchedule>) {
    forall k :: k in schedules ==> schedules[k].id == k
  }

  /** The unique index on `email`. */
  predicate EmailsUnique(users: map<string, User>) {
    forall a, b :: a in users && b in users && users[a].email == users[b].email ==> a == b
  }

  /** The unique index on `[userId, weekDay]`. */
  predicate SlotsUnique(schedules: map<string, WorkSchedule>) {
    forall a, b ::
      (a in schedules && b in schedules && schedules[a].userId == schedules[b].userId && schedules[a].weekDay == schedules[b].weekDay)
      ==> a == b
  }

  /** No user stored under a key other than `key` has this email. */
  predicate EmailFree(users: map<string, User>, email: string, key: string) {
    forall k :: k in users && k != key ==> users[k].email != email
  }

  /** No schedule stored under a key other than `key` has this slot. */
  predicate SlotFree(schedules: map<string, WorkSchedule>, userId: string, weekDay: int, key: string) {
    forall k :: k in schedules && k != key ==> !(schedules[k].userId == userId && schedules[k].weekDay == weekDay)
  }

  /** Writing a user under its own id whose email no other user has keeps
      the email index unique. */
  lemma PutKeepsEmailsUnique(users: map<string, User>, u: User)
    requires EmailsUnique(users) && EmailFree(users, u.email, u.id)
    ensures EmailsUnique(users[u.id := u])
  {
  }

  lemma PutKeepsSlotsUnique(schedules: map<string, WorkSchedule>, s: WorkSchedule)
    requires SlotsUnique(schedules) && SlotFree(schedules, s.userId, s.weekDay, s.id)
    ensures SlotsUnique(schedules[s.id := s])
  {
  }

  /** The administrator created together with the users table. */
  function DefaultAdmin(now: nat): (u: User)
    ensures u.role == Admin && u.email == "admin@pontolocal.com" && u.password == "admin123"
    ensures |u.id| > 6 && u.id[..6] == "admin-" && AllDigits(u.id[6..]) && ParseNat(u.id[6..]) == now
  {
    var u := User("admin-" + NatToString(now), "Administrador", "admin@pontolocal.com", "admin123", Admin, None, now);
    assert u.id[6..] == NatToString(now);
    ParseNatToString(now);
    u
  }

  // ---------------------------------------------------------------------
  // Queries

  /** The inclusive time test of getTimeRecordsByDate. */
  function Within(start: int, end: int): TimeRecord -> bool {
    (r: TimeRecord) => start <= r.timestamp <= end
  }

  /** The punches between start and end, both ends included, in the order
      given. */
  function RecordsBetween(rs: seq<TimeRecord>, start: int, end: int): (r: seq<TimeRecord>)
    ensures |r| <= |rs|
    ensures forall x :: x in r <==> x in rs && start <= x.timestamp <= end
  {
    FilterMembers(rs, Within(start, end));
    Filter(rs, Within(start, end))
  }

  /** The query keeps the punches' relative order and every copy of each. */
  lemma RecordsBetweenKeepsOrder(rs: seq<TimeRecord>, start: int, end: int)
    ensures IsSubsequence(RecordsBetween(rs, start, end), rs)
    ensures forall x :: multiset(RecordsBetween(rs, start, end))[x] == if start <= x.timestamp <= end then multiset(rs)[x] else 0
  {
    FilterIsSubsequence(rs, Within(start, end));
    forall x {
      FilterCount(rs, Within(start, end), x);
    }
  }

  /** The keys among `ks` under which `table` holds v. */
  function Holders<V(==)>(table: map<string, V>, ks: set<string>, v: V): set<string> {
    set k | k in ks && k in table && table[k] == v
  }

  /** The keys among `ks` whose value passes `keep`. */
  function Kept<V>(table: map<string, V>, keep: V -> bool, ks: set<string>): set<string> {
    set k | k in ks && k in table && keep(table[k])
  }

  lemma HoldersStep<V>(table: map<string, V>, done: set<string>, k: string, v: V)
    requires k in table && k !in done
    ensures |Holders(table, done + {k}, v)| == |Holders(table, done, v)| + (if table[k] == v then 1 else 0)
  {
    if table[k] == v {
      assert Holders(table, done + {k}, v) == Holders(table, done, v) + {k};
    } else {
      assert Holders(table, done + {k}, v) == Holders(table, done, v);
    }
  }

  lemma KeptStep<V>(table: map<string, V>, keep: V -> bool, done: set<string>, k: string)
    requires k in table && k !in done
    ensures |Kept(table, keep, done + {k})| == |Kept(table, keep, done)| + (if keep(table[k]) then 1 else 0)
  {
    if keep(table[k]) {
      assert Kept(table, keep, done + {k}) == Kept(table, keep, done) + {k};
    } else {
      assert Kept(table, keep, done + {k}) == Kept(table, keep, done);
    }
  }

  /** A value is held under some key exactly when it is one of the values. */
  lemma HoldersOfValue<V>(table: map<string, V>, v: V)
    ensures |Holders(table, table.Keys, v)| > 0 <==> v in table.Values
  {
    if v in table.Values {
      var k :| k in table && table[k] == v;
      assert k in Holders(table, table.Keys, v);
    } else {
      assert Holders(table, table.Keys, v) == {};
    }
  }

  /** In a table where every value sits under its own id, a stored value is
      held under exactly one key. */
  lemma KeyedHolders<V>(table: map<string, V>, id: V -> string, v: V)
    requires forall k :: k in table ==> id(table[k]) == k
    ensures |Holders(table, table.Keys, v)| == if v in table.Values then 1 else 0
  {
    if v in table.Values {
      var k :| k in table && table[k] == v;
      assert Holders(table, table.Keys, v) == {k};
    } else {
      assert Holders(table, table.Keys, v) == {};
    }
  }

  /** The values of a table that satisfy `keep`: one entry per key holding
      such a value (the key order IndexedDB returns them in is not
      modelled). */
  method CollectValues<V(==)>(table: map<string, V>, keep: V -> bool) returns (r: seq<V>)
    ensures forall v :: v in r <==> v in table.Values && keep(v)
    ensures forall v :: multiset(r)[v] == if keep(v) then |Holders(table, table.Keys, v)| else 0
    ensures |r| == |Kept(table, keep, table.Keys)|
  {
    r := [];
    var keys := table.Keys;
    ghost var done: set<string> := {};
    while keys != {}
      invariant keys <= table.Keys && done == table.Keys - keys
      invariant forall v :: multiset(r)[v] == if keep(v) then |Holders(table, done, v)| else 0
      invariant |r| == |Kept(table, keep, done)|
      decreases keys
    {
      var k :| k in keys;
      forall v
        ensures |Holders(table, done + {k}, v)| == |Holders(table, done, v)| + (if table[k] == v then 1 else 0)
      {
        HoldersStep(table, done, k, v);
      }
      KeptStep(table, keep, done, k);
      if keep(table[k]) {
        r := r + [table[k]];
      }
      keys := keys - {k};
      done := done + {k};
    }
    assert done == table.Keys;
    forall v
      ensures v in r <==> v in table.Values && keep(v)
    {
      HoldersOfValue(table, v);
    }
  }

  // ---------------------------------------------------------------------
  // The database

  class Database {
    var users: map<string, User>
    var timeRecords: map<string, TimeRecord>
    var workSchedules: map<string, WorkSchedule>

    /** Every value sits under its own id, and the unique indexes hold. */
    ghost predicate Valid()
      reads this
    {
      && UsersKeyed(users) && RecordsKeyed(timeRecords) && SchedulesKeyed(workSchedules)
      && EmailsUnique(users) && SlotsUnique(workSchedules)
    }

    /** Opening a new database creates the tables with the default
        administrator as the only user. */
    constructor (now: nat)
      ensures Valid()
      ensures users == map[DefaultAdmin(now).id := DefaultAdmin(now)]
      ensures timeRecords == map[] && workSchedules == map[]
    {
      var admin := DefaultAdmin(now);
      users := map[admin.id := admin];
      timeRecords := map[];
      workSchedules := map[];
    }

    // Users

    /** createUser: `add`, refused when the id or the email is taken. */
    method CreateUser(u: User) returns (ok: bool)
      requires Valid()
      modifies this
      ensures Valid()
      ensures ok <==> u.id !in old(users) && EmailFree(old(users), u.email, u.id)
      ensures users == if ok then old(users)[u.id := u] else old(users)
      ensures timeRecords == old(timeRecords) && workSchedules == old(workSchedules)
    {
      ok := u.id !in users && EmailFree(users, u.email, u.id);
      if ok {
        PutKeepsEmailsUnique(users, u);
        users := users[u.id := u];
      }
    }

    /** getUserById: the user stored under the key, or null. */
    function UserById(id: string): (r: Option<User>)
      reads this
      ensures r.Some? <==> id in users
      ensures r.Some? ==> r.value == users[id]
    {
      if id in users then Some(users[id]) else None
    }

    /** getUserByEmail: a lookup on the email index. */
    method GetUserByEmail(email: string) returns (r: Option<User>)
      requires Valid()
      ensures r.None? <==> forall k :: k in users ==> users[k].email != email
      ensures forall k :: k in users && users[k].email == email ==> r == Some(users[k])
    {
      var keys := users.Keys;
      while keys != {}
        invariant keys <= users.Keys
        invariant forall k :: k in users.Keys - keys ==> users[k].email != email
        decreases keys
      {
        var k :| k in keys;
        if users[k].email == email {
          return Some(users[k]);
        }
        keys := keys - {k};
      }
      return None;
    }

    /** getAllUsers: every stored user, each once. */
    method GetAllUsers() returns (r: seq<User>)
      requires Valid()
      ensures forall u :: multiset(r)[u] == if u in users.Values then 1 else 0
      ensures forall u :: u in r <==> u in users.Values
    {
      r := CollectValues(users, (u: User) => true);
      forall u
        ensures multiset(r)[u] == if u in users.Values then 1 else 0
      {
        KeyedHolders(users, (u: User) => u.id, u);
      }
    }

    /** updateUser: `put`, refused only when another user has the email. */
    method UpdateUser(u: User) returns (ok: bool)
      requires Valid()
      modifies this
      ensures Valid()
      ensures ok <==> EmailFree(old(users), u.email, u.id)
      ensures users == if ok then old(users)[u.id := u] else old(users)
      ensures timeRecords == old(timeRecords) && workSchedules == old(workSchedules)
    {
      ok := EmailFree(users, u.email, u.id);
      if ok {
        PutKeepsEmailsUnique(users, u);
        users := users[u.id := u];
      }
    }

    /** deleteUser: removes the key if present. */
    method DeleteUser(id: string)
      requires Valid()
      modifies this
      ensures Valid()
      ensures users == old(users) - {id}
      ensures timeRecords == old(timeRecords) && workSchedules == old(workSchedules)
    {
      users := users - {id};
    }

    // Punches: there is an `add` and two queries, and no way to change or
    // remove a stored punch.

    /** createTimeRecord: `add`, refused when the id is taken. */
    method CreateTimeRecord(record: TimeRecord) returns (ok: bool)
      requires Valid()
      modifies this
      ensures Valid()
      ensures ok <==> record.id !in old(timeRecords)
      ensures timeRecords == if ok then old(timeRecords)[record.id := record] else old(timeRecords)
      ensures forall k :: k in old(timeRecords) ==> k in timeRecords && timeRecords[k] == old(timeRecords)[k]
      ensures users == old(users) && workSchedules == old(workSchedules)
    {
      ok := record.id !in timeRecords;
      if ok {
        timeRecords := timeRecords[record.id := record];
      }
    }

    /** getTimeRecordsByUserId: the punches on the userId index entry, each
        once. */
    method GetTimeRecordsByUserId(userId: string) returns (r: seq<TimeRecord>)
      requires Valid()
      ensures forall x :: multiset(r)[x] == if x in timeRecords.Values && x.userId == userId then 1 else 0
      ensures forall x :: x in r <==> x in timeRecords.Values && x.userId == userId
    {
      r := CollectValues(timeRecords, (x: TimeRecord) => x.userId == userId);
      forall x
        ensures multiset(r)[x] == if x in timeRecords.Values && x.userId == userId then 1 else 0
      {
        KeyedHolders(timeRecords, (x: TimeRecord) => x.id, x);
      }
    }

    /** getTimeRecordsByDate: the user's punches between start and end,
        both included. */
    method GetTimeRecordsByDate(userId: string, start: int, end: int) returns (r: seq<TimeRecord>)
      requires Valid()
      ensures forall x :: multiset(r)[x] == if x in timeRecords.Values && x.userId == userId && start <= x.timestamp <= end then 1 else 0
      ensures forall x :: x in r <==> x in timeRecords.Values && x.userId == userId && start <= x.timestamp <= end
    {
      var all := GetTimeRecordsByUserId(userId);
      r := RecordsBetween(all, start, end);
      RecordsBetweenKeepsOrder(all, start, end);
    }

    // Work schedules

    /** createWorkSchedule: `add`, refused when the id or the slot is taken. */
    method CreateWorkSchedule(s: WorkSchedule) returns (ok: bool)
      requires Valid()
      modifies this
      ensures Valid()
      ensures ok <==> s.id !in old(workSchedules) && SlotFree(old(workSchedules), s.userId, s.weekDay, s.id)
      ensures workSchedules == if ok then old(workSchedules)[s.id := s] else old(workSchedules)
      ensures users == old(users) && timeRecords == old(timeRecords)
    {
      ok := s.id !in workSchedules && SlotFree(workSchedules, s.userId, s.weekDay, s.id);
      if ok {
        PutKeepsSlotsUnique(workSchedules, s);
        workSchedules := workSchedules[s.id := s];
      }
    }

    /** getWorkSchedulesByUserId: the schedules on the userId index entry,
        each once. */
    method GetWorkSchedulesByUserId(userId: string) returns (r: seq<WorkSchedule>)
      requires Valid()
      ensures forall x :: multiset(r)[x] == if x in workSchedules.Values && x.userId == userId then 1 else 0
      ensures forall x :: x in r <==> x in workSchedules.Values && x.userId == userId
    {
      r := CollectValues(workSchedules, (x: WorkSchedule) => x.userId == userId);
      forall x
        ensures multiset(r)[x] == if x in workSchedules.Values && x.userId == userId then 1 else 0
      {
        KeyedHolders(workSchedules, (x: WorkSchedule) => x.id, x);
      }
    }

    /** updateWorkSchedule: `put`, refused only when another schedule holds
        the slot. */
    method UpdateWorkSchedule(s: WorkSchedule) returns (ok: bool)
      requires Valid()
      modifies this
      ensures Valid()
      ensures ok <==> SlotFree(old(workSchedules), s.userId, s.weekDay, s.id)
      ensures workSchedules == if ok then old(workSchedules)[s.id := s] else old(workSchedules)
      ensures users == old(users) && timeRecords == old(timeRecords)
    {
      ok := SlotFree(workSchedules, s.userId, s.weekDay, s.id);
      if ok {
        PutKeepsSlotsUnique(workSchedules, s);
        workSchedules := workSchedules[s.id := s];
      }
    }

    /** deleteWorkSchedule: removes the key if present. */
    method DeleteWorkSchedule(id: string)
      requires Valid()
      modifies this
      ensures Valid()
      ensures workSchedules == old(workSchedules) - {id}
      ensures users == old(users) && timeRecords == old(timeRecords)
    {
      workSchedules := workSchedules - {id};
    }
  }
}
