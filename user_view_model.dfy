/** `UserViewModel`: the sequences of user-table statements behind the
    profile screen. `UUID.randomUUID()` and the clock are parameters. */
module UserViewModel {
  import opened Wrappers
  import opened Records
  import opened UserDao

  /** The name of the default user, "me". */
  const DEFAULT_USER_NAME := "我"

  /** The user `initializeDefaultUsers` means to create. */
  function DefaultUser(uuid: string, now: Int64): (u: User)
    ensures u.id == uuid && u.name == DEFAULT_USER_NAME && u.isCurrentUser
  {
    NewUser(uuid, DEFAULT_USER_NAME, now).(isCurrentUser := true)
  }

  /** What `userDao.getCurrentUser()` hands back: the query's `Flow`, a
      non-null object whatever the table holds. */
  datatype CurrentUserFlow = CurrentUserFlow

  /** `initializeDefaultUsers` as written: it compares the `Flow` object,
      not the user it would emit, with null. */
  function InitializedAsWritten(rows: map<string, User>, uuid: string, now: Int64): map<string, User> {
    var existingUser: Option<CurrentUserFlow> := Some(CurrentUserFlow);
    if existingUser.None? then Insert(rows, DefaultUser(uuid, now)) else rows
  }

  /** On a fresh install the default user is never created: the table
      stays empty and no user is current. This is immediate from
      `InitializedAsWritten` returning the rows unchanged; it is the
      as-written half of the null test's defect, stated for the input that
      shows it. */
  lemma FreshInstallHasNoCurrentUser(uuid: string, now: Int64)
    ensures InitializedAsWritten(map[], uuid, now) == map[]
    ensures CurrentUsers(InitializedAsWritten(map[], uuid, now)) == {}
  {
  }

  /** `initializeDefaultUsers` as intended: insert a current default user
      when no user is current. */
  function InitializedIntended(rows: map<string, User>, uuid: string, now: Int64): map<string, User> {
    if CurrentUsers(rows) == {} then Insert(rows, DefaultUser(uuid, now)) else rows
  }

  /** After the intended initialisation some user is current, and a table
      that already had a current user is left alone. */
  lemma InitializedIntendedSpec(rows: map<string, User>, uuid: string, now: Int64)
    requires Keyed(rows)
    ensures Keyed(InitializedIntended(rows, uuid, now))
    ensures CurrentUsers(InitializedIntended(rows, uuid, now)) != {}
    ensures CurrentUsers(rows) != {} ==> InitializedIntended(rows, uuid, now) == rows
    ensures CurrentUsers(rows) == {} ==> DefaultUser(uuid, now) in CurrentUsers(InitializedIntended(rows, uuid, now))
  {
    if CurrentUsers(rows) == {} {
      var t := Insert(rows, DefaultUser(uuid, now));
      assert t[uuid] == DefaultUser(uuid, now);
      assert uuid in t && t[uuid] in t.Values;
      assert DefaultUser(uuid, now) in CurrentUsers(t);
    }
  }

  /** Adding a user under a fresh id shows the new user, not current, and
      leaves who is current as it was. */
  lemma AddUserKeepsCurrent(rows: map<string, User>, uuid: string, name: string, now: Int64)
    requires Keyed(rows) && uuid !in rows
    ensures var t := Insert(rows, NewUser(uuid, name, now));
      && Keyed(t)
      && NewUser(uuid, name, now) in t.Values
      && CurrentUsers(t) == CurrentUsers(rows)
  {
    var u := NewUser(uuid, name, now);
    var t := Insert(rows, u);
    assert t[uuid] == u;
    forall v | v in CurrentUsers(t)
      ensures v in CurrentUsers(rows)
    {
      var k :| k in t && t[k] == v;
      assert k != uuid;
      assert rows[k] == v;
    }
    forall v | v in CurrentUsers(rows)
      ensures v in CurrentUsers(t)
    {
      var k :| k in rows && rows[k] == v;
      assert t[k] == v;
    }
  }

  class UserViewModel {
    const users: UserTable

    predicate Valid()
      reads this, users
    {
      users.Valid()
    }

    constructor(users: UserTable)
      requires users.Valid()
      ensures this.users == users && Valid()
    {
      this.users := users;
    }

    /** `initializeDefaultUsers`: the null test is on the `Flow` object, so
        no user is ever inserted. */
    method InitializeDefaultUsers(uuid: string, now: Int64)
      requires Valid()
      ensures users.rows == InitializedAsWritten(users.rows, uuid, now)
    {
      // the comparison of the `Flow` with null is false: nothing to do
    }

    /** `addUser(name)`: a new user that is not current, under a fresh
        random id. */
    method AddUser(name: string, uuid: string, now: Int64)
      requires Valid()
      modifies users
      ensures Valid()
      ensures users.rows == Insert(old(users.rows), NewUser(uuid, name, now))
    {
      users.InsertUser(NewUser(uuid, name, now));
    }

    method UpdateUser(u: User)
      requires Valid()
      modifies users
      ensures Valid() && users.rows == Update(old(users.rows), u)
    {
      users.UpdateUser(u);
    }

    method DeleteUser(u: User)
      requires Valid()
      modifies users
      ensures Valid() && users.rows == Delete(old(users.rows), u)
    {
      users.DeleteUser(u);
    }

    /** `setCurrentUser(userId)`: clear every flag, then set the one. */
    method SetCurrentUser(id: string)
      requires Valid()
      modifies users
      ensures Valid()
      ensures users.rows == SetCurrent(ClearCurrent(old(users.rows)), id)
      ensures CurrentUsers(users.rows) == (if id in old(users.rows) then {old(users.rows)[id].(isCurrentUser := true)} else {})
    {
      SwitchCurrentUser(users.rows, id);
      users.ClearCurrentUser();
      users.SetCurrentUser(id);
    }
  }
}
