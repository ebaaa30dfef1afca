// The authentication context (src/contexts/auth-context.tsx): the role flags
// it derives from the signed-in user, the login credential check, logout,
// and the restore of a session kept in the browser's sessionStorage.

module Auth {
  import opened Basics
  import opened Model
  import opened Store

  // ---------------------------------------------------------------------
  // Flags

  /** `isAuthenticated: !!user`. */
  predicate IsAuthenticated(user: Option<User>) {
    user.Some?
  }

  /** `isAdmin: user?.role === 'admin'`. */
  function IsAdmin(user: Option<User>): (b: bool)
    ensures b <==> user.Some? && user.value.role == Admin
  {
    user.Some? && RoleName(user.value.role) == "admin"
  }

  /** `isManager: user?.role === 'manager' || user?.role === 'admin'`. */
  function IsManager(user: Option<User>): (b: bool)
    ensures b <==> user.Some? && user.value.role != Employee
  {
    user.Some? && (RoleName(user.value.role) == "manager" || RoleName(user.value.role) == "admin")
  }

  /** Every administrator counts as a manager, only a signed-in user has
      either flag, and an employee has neither. */
  lemma FlagsNested(user: Option<User>)
    ensures IsAdmin(user) ==> IsManager(user)
    ensures IsManager(user) ==> IsAuthenticated(user)
    ensures user.Some? && user.value.role == Employee ==> !IsAdmin(user) && !IsManager(user)
    ensures IsManager(user) && !IsAdmin(user) <==> user.Some? && user.value.role == Manager
  {
  }

  // ---------------------------------------------------------------------
  // The context

  /** A session row. Its helpers (createSession, deleteSession,
      updateSessionActivity) live outside the modelled store; only the
      value they hand back is modelled. */
  datatype Session = Session(id: string, userId: string)

  const UserKey: string := "currentUser"
  const SessionKey: string := "currentSession"

  /** `sessionStorage.getItem(key)` when it is truthy (present and not ""). */
  function StoredText(storage: map<string, string>, key: string): (r: Option<string>)
    ensures r.Some? <==> key in storage && storage[key] != ""
    ensures r.Some? ==> r.value == storage[key]
  {
    if key in storage && storage[key] != "" then Some(storage[key]) else None
  }

  class AuthContext {
    var user: Option<User>
    var session: Option<Session>
    var isLoading: bool
    /** The tab's sessionStorage. */
    var storage: map<string, string>

    /** The provider's initial state, before its restore effect runs. */
    constructor (storage0: map<string, string>)
      ensures user.None? && session.None? && isLoading && storage == storage0
    {
      user := None;
      session := None;
      isLoading := true;
      storage := storage0;
    }

    /** The mount effect. JSON.parse is the two parse parameters, None
        standing for a throw. A stored session that does not parse, or a
        stored user that does not parse, removes both keys; in the second
        case the session has already been taken over. Loading always ends. */
    method RestoreSession(parseSession: string -> Option<Session>, parseUser: string -> Option<User>)
      modifies this
      ensures !isLoading
      ensures StoredText(old(storage), SessionKey).None? ==>
        user == old(user) && session == old(session) && storage == old(storage)
      ensures StoredText(old(storage), SessionKey).Some? && parseSession(StoredText(old(storage), SessionKey).value).None? ==>
        user == old(user) && session == old(session) && storage == old(storage) - {UserKey, SessionKey}
      ensures StoredText(old(storage), SessionKey).Some? && parseSession(StoredText(old(storage), SessionKey).value).Some? ==>
        && session == parseSession(StoredText(old(storage), SessionKey).value)
        && (StoredText(old(storage), UserKey).None? ==> user == old(user) && storage == old(storage))
        && (StoredText(old(storage), UserKey).Some? && parseUser(StoredText(old(storage), UserKey).value).None? ==>
              user == old(user) && storage == old(storage) - {UserKey, SessionKey})
        && (StoredText(old(storage), UserKey).Some? && parseUser(StoredText(old(storage), UserKey).value).Some? ==>
              user == parseUser(StoredText(old(storage), UserKey).value) && storage == old(storage))
    {
      var storedSession := StoredText(storage, SessionKey);
      if storedSession.Some? {
        var parsedSession := parseSession(storedSession.value);
        if parsedSession.None? {
          storage := storage - {UserKey, SessionKey};
        } else {
          session := parsedSession;
          var storedUser := StoredText(storage, UserKey);
          if storedUser.Some? {
            var parsedUser := parseUser(storedUser.value);
            if parsedUser.None? {
              storage := storage - {UserKey, SessionKey};
            } else {
              user := parsedUser;
            }
          }
        }
      }
      isLoading := false;
    }

    /** login: succeeds exactly when a stored user has this email and this
        password and a session could be created (`newSession`, None standing
        for a rejected createSession). On success the user and the session
        are taken over and written to storage (`encodeUser`/`encodeSession`
        stand for JSON.stringify); on failure nothing changes. */
    method Login(db: Database, email: string, password: string, newSession: Option<Session>,
                 encodeUser: User -> string, encodeSession: Session -> string) returns (ok: bool)
      requires db.Valid()
      modifies this
      ensures ok <==> newSession.Some? && exists k :: k in db.users && db.users[k].email == email && db.users[k].password == password
      ensures ok ==> user.Some? && user.value in db.users.Values && user.value.email == email && user.value.password == password
      ensures ok ==> session == newSession && storage == old(storage)[UserKey := encodeUser(user.value)][SessionKey := encodeSession(newSession.value)]
      ensures !ok ==> user == old(user) && session == old(session) && storage == old(storage)
      ensures isLoading == old(isLoading)
    {
      var found := db.GetUserByEmail(email);
      if found.Some? && found.value.password == password && newSession.Some? {
        user := found;
        session := newSession;
        storage := storage[UserKey := encodeUser(found.value)][SessionKey := encodeSession(newSession.value)];
        ok := true;
      } else {
        ok := false;
      }
    }

    /** logout: whatever deleteSession does, the user and the session end up
        cleared and both storage keys removed. */
    method Logout()
      modifies this
      ensures user.None? && session.None?
      ensures storage == old(storage) - {UserKey, SessionKey}
      ensures isLoading == old(isLoading)
    {
      user := None;
      session := None;
      storage := storage - {UserKey, SessionKey};
    }
  }
}
