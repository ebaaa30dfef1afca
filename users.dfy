// The users page (src/pages/Usuarios.tsx): avatar initials, the role badge,
// the order the list is shown in, the create/edit dialog's validation and
// the user it saves, and the delete and admin gates.

module Users {
  import opened Basics
  import opened Model
  import opened Text
  import opened Store
  import opened Auth

  // ---------------------------------------------------------------------
  // Initials

  /** String.prototype.split(' '): the pieces between single spaces; there
      is always at least one, possibly empty. */
  function SplitSpaces(s: string): (parts: seq<string>)
    ensures |parts| >= 1
    ensures forall i :: 0 <= i < |parts| ==> ' ' !in parts[i]
    decreases |s|
  {
    if s == [] then [""]
    else
      var rest := SplitSpaces(s[1..]);
      if s[0] == ' ' then [""] + rest
      else
        var parts := [[s[0]] + rest[0]] + rest[1..];
        assert forall i :: 1 <= i < |parts| ==> parts[i] == rest[i];
        parts
  }

  /** Array.prototype.join(' '). */
  function JoinSpaces(parts: seq<string>): string
    requires |parts| >= 1
    decreases |parts|
  {
    if |parts| == 1 then parts[0] else parts[0] + " " + JoinSpaces(parts[1..])
  }

  /** Splitting loses nothing: joining the pieces gives the name back. */
  lemma {:induction false} SplitSpacesJoins(s: string)
    ensures JoinSpaces(SplitSpaces(s)) == s
    decreases |s|
  {
    if s != [] {
      SplitSpacesJoins(s[1..]);
      var rest := SplitSpaces(s[1..]);
      assert s == [s[0]] + s[1..];
      if s[0] == ' ' {
        assert ([""] + rest)[1..] == rest;
      } else {
        var parts := [[s[0]] + rest[0]] + rest[1..];
        if |rest| > 1 {
          assert parts[1..] == rest[1..];
        }
      }
    }
  }

  /** `.map(part => part[0]).join('')`: the first character of every
      non-empty piece (an empty piece's `undefined` joins as ""). */
  function Heads(parts: seq<string>): (r: string)
    ensures |r| <= |parts|
    decreases |parts|
  {
    if parts == [] then [] else (if parts[0] == [] then [] else [parts[0][0]]) + Heads(parts[1..])
  }

  /** The letters that begin a word: every non-space character at the start
      (when `atStart`) or right after a space. */
  function WordStarts(s: string, atStart: bool): (r: string)
    ensures ' ' !in r
    decreases |s|
  {
    if s == [] then []
    else (if atStart && s[0] != ' ' then [s[0]] else []) + WordStarts(s[1..], s[0] == ' ')
  }

  /** The heads of the split pieces are exactly the letters that begin a
      word; those of all pieces but the first, the ones after a space. */
  lemma {:induction false} HeadsOfSplit(s: string)
    ensures Heads(SplitSpaces(s)) == WordStarts(s, true)
    ensures Heads(SplitSpaces(s)[1..]) == WordStarts(s, false)
    decreases |s|
  {
    if s != [] {
      HeadsOfSplit(s[1..]);
      var rest := SplitSpaces(s[1..]);
      if s[0] == ' ' {
        assert SplitSpaces(s) == [""] + rest;
        assert SplitSpaces(s)[1..] == rest;
      } else {
        assert SplitSpaces(s)[1..] == rest[1..];
      }
    }
  }

  /** Upper-casing never produces a space from a letter. */
  lemma UpperKeepsNoSpace(s: string)
    requires ' ' !in s
    ensures ' ' !in Upper(s)
  {
    var u := Upper(s);
    forall i | 0 <= i < |u|
      ensures u[i] != ' '
    {
      assert s[i] in s;
    }
  }

  /** getInitials: the upper-cased word-initial letters, at most two. The
      same function is written out again in src/components/layout/main-layout.tsx. */
  function GetInitials(name: string): (r: string)
    ensures |r| <= 2 && ' ' !in r
    ensures |r| == if |WordStarts(name, true)| < 2 then |WordStarts(name, true)| else 2
    ensures r == Upper(WordStarts(name, true))[..|r|]
  {
    HeadsOfSplit(name);
    UpperKeepsNoSpace(WordStarts(name, true));
    var letters := Upper(Heads(SplitSpaces(name)));
    if |letters| <= 2 then letters else letters[..2]
  }

  /** A name with two words, and one whose first word is empty. */
  lemma InitialsExamples()
    ensures GetInitials("") == ""
    ensures GetInitials("a b") == "AB"
    ensures GetInitials(" b") == "B"
  {
    assert WordStarts("", true) == [];
    assert WordStarts("a b", true) == "ab";
    assert WordStarts(" b", true) == "b";
  }



  // ---------------------------------------------------------------------
  // The role badge

  /** getRoleLabel: any other string falls to the employee label. */
  function RoleLabel(role: string): string {
    if role == "admin" then "Administrador"
    else if role == "manager" then "Gerente"
    else "Funcion\U{00E1}rio"
  }

  /** getRoleBgColor, with the same default branch. */
  function RoleBgColor(role: string): string {
    if role == "admin" then "bg-red-100 text-red-800"
    else if role == "manager" then "bg-blue-100 text-blue-800"
    else "bg-green-100 text-green-700"
  }

  /** The three roles get three different labels; the badge colour picks
      out the same three classes of strings as the label, and a string that
      is not a role name is shown as an employee. */
  lemma RoleBadgeConsistent(a: string, b: string, r1: Role, r2: Role)
    ensures RoleLabel(RoleName(r1)) == RoleLabel(RoleName(r2)) <==> r1 == r2
    ensures RoleBgColor(a) == RoleBgColor(b) <==> RoleLabel(a) == RoleLabel(b)
    ensures a != "admin" && a != "manager" ==> RoleLabel(a) == RoleLabel(RoleName(Employee)) && RoleBgColor(a) == RoleBgColor(RoleName(Employee))
  {
  }

  // ---------------------------------------------------------------------
  // List order

  /** Position in the list: administrators, then managers, then employees. */
  function Rank(r: Role): nat {
    match r
    case Admin => 0
    case Manager => 1
    case Employee => 2
  }

  /** loadUsers' comparator as written: an administrator on the left wins
      before the right one is even looked at. */
  function CompareUsersAsWritten(a: User, b: User): int {
    if a.role == Admin then -1
    else if b.role == Admin then 1
    else if a.role == Manager then -1
    else if b.role == Manager then 1
    else CompareStrings(a.name, b.name)
  }

  /** Two administrators (or two managers) each claim to come before the
      other, and one compared with itself does not compare equal, so the
      comparator is not a consistent order and Array.prototype.sort may put
      them in any order. */
  lemma AsWrittenNotAntisymmetric(a: User, b: User)
    requires a.role == b.role && a.role != Employee
    ensures CompareUsersAsWritten(a, b) == -1 && CompareUsersAsWritten(b, a) == -1
    ensures CompareUsersAsWritten(a, a) != 0
  {
  }

  /** The order meant: by rank, then by name. */
  function CompareUsers(a: User, b: User): (r: int)
    ensures r == -1 || r == 0 || r == 1
    ensures r == 0 <==> a.role == b.role && a.name == b.name
    ensures Rank(a.role) < Rank(b.role) ==> r == -1
    ensures a.role == b.role ==> (r == -1 <==> StrLess(a.name, b.name))
  {
    if Rank(a.role) < Rank(b.role) then -1
    else if Rank(a.role) > Rank(b.role) then 1
    else CompareStrings(a.name, b.name)
  }

  lemma CompareUsersAntisymmetric(a: User, b: User)
    ensures CompareUsers(a, b) == -CompareUsers(b, a)
  {
  }

  lemma CompareUsersTransitive(a: User, b: User, c: User)
    requires CompareUsers(a, b) <= 0 && CompareUsers(b, c) <= 0
    ensures CompareUsers(a, c) <= 0
  {
    if a.role == b.role && b.role == c.role && StrLess(a.name, b.name) && StrLess(b.name, c.name) {
      StrLessTransitive(a.name, b.name, c.name);
    }
  }

  /** Wherever the comparator as written is consistent (the two users do not
      share the administrator or the manager role) it agrees with the order
      meant. */
  lemma AsWrittenAgreesElsewhere(a: User, b: User)
    requires !(a.role == b.role && a.role != Employee)
    ensures CompareUsersAsWritten(a, b) == CompareUsers(a, b)
  {
  }

  predicate UsersSorted(us: seq<User>) {
    forall i, j :: 0 <= i < j < |us| ==> CompareUsers(us[i], us[j]) <= 0
  }

  predicate AllNotAfter(us: seq<User>, bound: User) {
    forall i :: 0 <= i < |us| ==> CompareUsers(us[i], bound) <= 0
  }

  lemma AllNotAfterPermuted(a: seq<User>, b: seq<User>, bound: User)
    requires multiset(a) == multiset(b) && AllNotAfter(b, bound)
    ensures AllNotAfter(a, bound)
  {
    forall i | 0 <= i < |a|
      ensures CompareUsers(a[i], bound) <= 0
    {
      assert a[i] in multiset(b);
      var j :| 0 <= j < |b| && b[j] == a[i];
    }
  }

  /** Inserts u after every user that does not come after it. */
  function InsertUser(us: seq<User>, u: User): (r: seq<User>)
    ensures |r| == |us| + 1
    decreases |us|
  {
    if us == [] || CompareUsers(us[|us| - 1], u) <= 0 then us + [u]
    else InsertUser(us[..|us| - 1], u) + [us[|us| - 1]]
  }

  lemma {:induction false} InsertUserPermutes(us: seq<User>, u: User)
    ensures multiset(InsertUser(us, u)) == multiset(us) + multiset{u}
    decreases |us|
  {
    if !(us == [] || CompareUsers(us[|us| - 1], u) <= 0) {
      var init, last := us[..|us| - 1], us[|us| - 1];
      assert us == init + [last];
      InsertUserPermutes(init, u);
    }
  }

  lemma {:induction false} InsertUserSorted(us: seq<User>, u: User)
    requires UsersSorted(us)
    ensures UsersSorted(InsertUser(us, u))
    decreases |us|
  {
    if us != [] && CompareUsers(us[|us| - 1], u) <= 0 {
      forall i | 0 <= i < |us| - 1
        ensures CompareUsers(us[i], u) <= 0
      {
        CompareUsersTransitive(us[i], us[|us| - 1], u);
      }
    } else if us != [] {
      var init, last := us[..|us| - 1], us[|us| - 1];
      assert us == init + [last];
      CompareUsersAntisymmetric(last, u);
      InsertUserSorted(init, u);
      InsertUserPermutes(init, u);
      assert AllNotAfter(init + [u], last);
      AllNotAfterPermuted(InsertUser(init, u), init + [u], last);
    }
  }

  /** The list as loadUsers means to show it: a stable sort by the order
      meant. */
  function SortUsers(us: seq<User>): (r: seq<User>)
    ensures |r| == |us|
    decreases |us|
  {
    if us == [] then [] else InsertUser(SortUsers(us[..|us| - 1]), us[|us| - 1])
  }

  lemma {:induction false} SortUsersCorrect(us: seq<User>)
    ensures UsersSorted(SortUsers(us))
    ensures multiset(SortUsers(us)) == multiset(us)
    decreases |us|
  {
    if us != [] {
      var init, last := us[..|us| - 1], us[|us| - 1];
      assert us == init + [last];
      SortUsersCorrect(init);
      InsertUserSorted(SortUsers(init), last);
      InsertUserPermutes(SortUsers(init), last);
    }
  }

  /** loadUsers: every stored user, administrators first, then managers,
      then employees, each group by name. */
  method LoadUsers(db: Database) returns (users: seq<User>)
    requires db.Valid()
    ensures forall u :: multiset(users)[u] == if u in db.users.Values then 1 else 0
    ensures forall u :: u in users <==> u in db.users.Values
    ensures UsersSorted(users)
    ensures forall i, j :: 0 <= i < j < |users| ==> Rank(users[i].role) <= Rank(users[j].role)
  {
    var all := db.GetAllUsers();
    users := SortUsers(all);
    SortUsersCorrect(all);
    forall u
      ensures u in users <==> u in all
    {
      assert u in users <==> u in multiset(users);
      assert u in all <==> u in multiset(all);
    }
  }

  // ---------------------------------------------------------------------
  // The dialog and its save

  datatype UserForm = UserForm(name: string, email: string, password: string, role: Role)

  /** openCreateDialog: every field empty, role employee. */
  function CreateDialogForm(): UserForm {
    UserForm("", "", "", Employee)
  }

  /** openEditDialog: the user's fields, the password left empty. */
  function EditDialogForm(u: User): UserForm {
    UserForm(u.name, u.email, "", u.role)
  }

  /** The required-fields test: name and email not blank, and a password
      not blank when creating. */
  predicate FormComplete(f: UserForm, editing: bool) {
    !IsBlank(f.name) && !IsBlank(f.email) && (editing || !IsBlank(f.password))
  }

  /** The edited user: the form's name, email and role over the old record;
      the password only when the field is not empty (untrimmed). */
  function MergeEdit(u: User, f: UserForm): (r: User)
    ensures r.id == u.id && r.createdAt == u.createdAt && r.avatar == u.avatar
    ensures r.name == f.name && r.email == f.email && r.role == f.role
    ensures r.password == if f.password == "" then u.password else f.password
  {
    if f.password != "" then u.(name := f.name, email := f.email, role := f.role, password := f.password)
    else u.(name := f.name, email := f.email, role := f.role)
  }

  /** The created user: id "user-<now>", created now. */
  function NewUser(f: UserForm, now: nat): (u: User)
    ensures u.name == f.name && u.email == f.email && u.password == f.password && u.role == f.role
    ensures u.createdAt == now && u.avatar.None?
    ensures |u.id| > 5 && u.id[..5] == "user-" && AllDigits(u.id[5..]) && ParseNat(u.id[5..]) == now
  {
    var u := User("user-" + NatToString(now), f.name, f.email, f.password, f.role, None, now);
    assert u.id[5..] == NatToString(now);
    ParseNatToString(now);
    u
  }

  datatype UserSave = MissingFields | Updated(user: User) | Created(user: User)

  /** handleSaveUser up to the store write. */
  function PlanUserSave(f: UserForm, editing: Option<User>, now: nat): (r: UserSave)
    ensures r.MissingFields? <==> !FormComplete(f, editing.Some?)
    ensures r.Updated? <==> FormComplete(f, editing.Some?) && editing.Some?
    ensures r.Updated? ==> r.user == MergeEdit(editing.value, f)
    ensures r.Created? ==> r.user == NewUser(f, now)
  {
    if !FormComplete(f, editing.Some?) then MissingFields
    else if editing.Some? then Updated(MergeEdit(editing.value, f))
    else Created(NewUser(f, now))
  }

  /** The create dialog as opened is refused until it is filled in. */
  lemma CreateDialogRefusedAsOpened(now: nat)
    ensures PlanUserSave(CreateDialogForm(), None, now) == MissingFields
  {
  }

  /** Opening the edit dialog and saving it unchanged writes the same user
      back: the empty password field keeps the stored password. */
  lemma EditRoundTrip(u: User, now: nat)
    requires !IsBlank(u.name) && !IsBlank(u.email)
    ensures PlanUserSave(EditDialogForm(u), Some(u), now) == Updated(u)
  {
  }

  /** The blank test trims but the password test on an edit does not: a
      password of spaces is refused on creation and stored on an edit. */
  lemma SpacesPassword(u: User, f: UserForm, now: nat)
    requires f.password == "  " && !IsBlank(f.name) && !IsBlank(f.email)
    ensures PlanUserSave(f, None, now) == MissingFields
    ensures PlanUserSave(f, Some(u), now).Updated? && PlanUserSave(f, Some(u), now).user.password == "  "
  {
    assert IsBlank(f.password) by {
      assert forall i :: 0 <= i < |f.password| ==> f.password[i] == ' ';
    }
  }

  /** trim removes the Unicode space separators too: a name that is only an
      ideographic space (U+3000) is blank, so the form is refused. */
  lemma IdeographicSpaceNameRefused(f: UserForm, editing: Option<User>, now: nat)
    requires f.name == "\U{3000}"
    ensures PlanUserSave(f, editing, now) == MissingFields
  {
    assert IsBlank(f.name) by {
      assert f.name[0] == '\U{3000}';
    }
  }

  /** handleSaveUser: a form missing a field writes nothing; an edit is
      written with `put` (refused if another user has the email), a new user
      with `add`. `saved` says whether the store accepted it. */
  method HandleSaveUser(db: Database, f: UserForm, editing: Option<User>, now: nat) returns (outcome: UserSave, saved: bool)
    requires db.Valid()
    modifies db
    ensures db.Valid()
    ensures outcome == PlanUserSave(f, editing, now)
    ensures db.timeRecords == old(db.timeRecords) && db.workSchedules == old(db.workSchedules)
    ensures saved ==> !outcome.MissingFields? && db.users == old(db.users)[outcome.user.id := outcome.user]
    ensures !saved ==> db.users == old(db.users)
    ensures outcome.Updated? ==> (saved <==> EmailFree(old(db.users), outcome.user.email, outcome.user.id))
    ensures outcome.Created? ==> (saved <==> (outcome.user.id !in old(db.users) && EmailFree(old(db.users), outcome.user.email, outcome.user.id)))
  {
    outcome := PlanUserSave(f, editing, now);
    saved := false;
    match outcome {
      case Updated(u) =>
        saved := db.UpdateUser(u);
      case Created(u) =>
        saved := db.CreateUser(u);
      case MissingFields =>
    }
  }

  /** handleDeleteUser: removes the chosen user, if one was chosen. */
  method HandleDeleteUser(db: Database, toDelete: Option<User>)
    requires db.Valid()
    modifies db
    ensures db.Valid()
    ensures db.users == if toDelete.Some? then old(db.users) - {toDelete.value.id} else old(db.users)
    ensures db.timeRecords == old(db.timeRecords) && db.workSchedules == old(db.workSchedules)
  {
    if toDelete.Some? {
      db.DeleteUser(toDelete.value.id);
    }
  }

  // ---------------------------------------------------------------------
  // Gates

  /** The delete button is disabled on the signed-in user's own card. */
  predicate DeleteDisabled(card: User, current: Option<User>) {
    current.Some? && card.id == current.value.id
  }

  datatype UsersView = PermissionAlert | UserList

  /** Only an administrator gets the list; everyone else the alert. */
  function UsersPage(current: Option<User>): (v: UsersView)
    ensures v == UserList <==> current.Some? && current.value.role == Admin
  {
    if IsAdmin(current) then UserList else PermissionAlert
  }
}
