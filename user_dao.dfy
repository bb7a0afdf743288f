/** `UserDao` over the `users` table, keyed by the user's string id. At most
    one row is meant to carry `isCurrentUser`; the table itself does not
    enforce that, the clear-then-set sequence of the view model does. */
module UserDao {
  import opened Wrappers
  import opened Records
  import opened Listing

  /** Every row is stored under its own id. */
  predicate Keyed(rows: map<string, User>) {
    forall k :: k in rows ==> rows[k].id == k
  }

  /** `@Insert(onConflict = REPLACE)`. */
  function Insert(rows: map<string, User>, u: User): map<string, User> {
    rows[u.id := u]
  }

  /** `@Update`: the row with the same id is replaced; no row, no change. */
  function Update(rows: map<string, User>, u: User): map<string, User> {
    if u.id in rows then rows[u.id := u] else rows
  }

  /** `@Delete`: the row with the same id goes. */
  function Delete(rows: map<string, User>, u: User): map<string, User> {
    rows - {u.id}
  }

  /** `UPDATE users SET isCurrentUser = 0`. */
  function ClearCurrent(rows: map<string, User>): map<string, User> {
    map k | k in rows :: rows[k].(isCurrentUser := false)
  }

  /** `UPDATE users SET isCurrentUser = 1 WHERE id = :userId`. */
  function SetCurrent(rows: map<string, User>, id: string): map<string, User> {
    if id in rows then rows[id := rows[id].(isCurrentUser := true)] else rows
  }

  /** The rows `WHERE isCurrentUser = 1`. */
  function CurrentUsers(rows: map<string, User>): set<User> {
    set u | u in rows.Values && u.isCurrentUser
  }

  /** A REPLACE insert keeps the table keyed, stores the user under its id
      and leaves every other row as it was. */
  lemma InsertSpec(rows: map<string, User>, u: User)
    requires Keyed(rows)
    ensures Keyed(Insert(rows, u))
    ensures Insert(rows, u).Keys == rows.Keys + {u.id}
    ensures Insert(rows, u)[u.id] == u
    ensures forall k :: k in rows && k != u.id ==> Insert(rows, u)[k] == rows[k]
  {
  }

  /** Clearing then setting leaves the same users with the same fields, and
      exactly the named one, if it exists, marked current: afterwards
      `getCurrentUser` can only return that user. */
  lemma SwitchCurrentUser(rows: map<string, User>, id: string)
    requires Keyed(rows)
    ensures var t := SetCurrent(ClearCurrent(rows), id);
      && Keyed(t)
      && t.Keys == rows.Keys
      && (forall k :: k in t ==> t[k] == rows[k].(isCurrentUser := k == id))
      && CurrentUsers(t) == (if id in rows then {rows[id].(isCurrentUser := true)} else {})
  {
    var c := ClearCurrent(rows);
    var t := SetCurrent(c, id);
    assert forall k :: k in t ==> t[k] == rows[k].(isCurrentUser := k == id);
    if id in rows {
      var u := rows[id].(isCurrentUser := true);
      assert t[id] == u;
      forall v | v in CurrentUsers(t)
        ensures v == u
      {
        var k :| k in t && t[k] == v;
      }
    } else {
      forall v | v in t.Values
        ensures !v.isCurrentUser
      {
        var k :| k in t && t[k] == v;
      }
    }
  }

  /** Setting without clearing first keeps every earlier current user: two
      rows end up marked when another user was current. */
  lemma SetWithoutClear(rows: map<string, User>, id: string, other: string)
    requires Keyed(rows) && id in rows && other in rows && other != id
    requires rows[other].isCurrentUser
    ensures |CurrentUsers(SetCurrent(rows, id))| >= 2
  {
    var t := SetCurrent(rows, id);
    assert t[other] in CurrentUsers(t);
    assert t[id] in CurrentUsers(t);
    assert t[other].id != t[id].id;
    var pair := {t[other], t[id]};
    var rest := CurrentUsers(t) - pair;
    assert CurrentUsers(t) == rest + pair;
    assert rest * pair == {};
    assert |pair| == 2;
  }

  /** The `users` table. */
  class UserTable {
    var rows: map<string, User>

    predicate Valid()
      reads this
    {
      Keyed(rows)
    }

    constructor()
      ensures rows == map[] && Valid()
    {
      rows := map[];
    }

    /** `getAllUsers`: every row once, in no particular order. */
    method GetAllUsers() returns (r: seq<User>)
      ensures multiset(r) == multiset(rows.Values)
    {
      r := ListAll(rows.Values);
    }

    /** `getCurrentUser` (`LIMIT 1`): some row marked current, or null when
        none is. */
    method GetCurrentUser() returns (r: Option<User>)
      ensures r.None? <==> CurrentUsers(rows) == {}
      ensures r.Some? ==> r.value in rows.Values && r.value.isCurrentUser
    {
      if CurrentUsers(rows) == {} {
        return None;
      }
      var u :| u in CurrentUsers(rows);
      r := Some(u);
    }

    /** `getUserById`: the row with that id, or null. */
    function GetUserById(id: string): (r: Option<User>)
      requires Valid()
      reads this
      ensures r.Some? <==> id in rows
      ensures r.Some? ==> r.value in rows.Values && r.value.id == id
    {
      if id in rows then Some(rows[id]) else None
    }

    method InsertUser(u: User)
      requires Valid()
      modifies this
      ensures Valid() && rows == Insert(old(rows), u)
    {
      rows := rows[u.id := u];
    }

    method UpdateUser(u: User)
      requires Valid()
      modifies this
      ensures Valid() && rows == Update(old(rows), u)
    {
      if u.id in rows {
        rows := rows[u.id := u];
      }
    }

    method DeleteUser(u: User)
      requires Valid()
      modifies this
      ensures Valid() && rows == Delete(old(rows), u)
    {
      rows := rows - {u.id};
    }

    method ClearCurrentUser()
      requires Valid()
      modifies this
      ensures Valid() && rows == ClearCurrent(old(rows))
    {
      rows := map k | k in rows :: rows[k].(isCurrentUser := false);
    }

    method SetCurrentUser(id: string)
      requires Valid()
      modifies this
      ensures Valid() && rows == SetCurrent(old(rows), id)
    {
      if id in rows {
        rows := rows[id := rows[id].(isCurrentUser := true)];
      }
    }
  }
}

/** `SharedMemoryDao` over the `shared_memories` table, keyed by the share's
    string id. */
module SharedMemoryDao {
  import opened Records
  import opened Listing

  /** Every row is stored under its own id. */
  predicate Keyed(rows: map<string, SharedMemory>) {
    forall k :: k in rows ==> rows[k].id == k
  }

  /** The rows `WHERE memoryId = :memoryId`. */
  function ForEvent(rows: map<string, SharedMemory>, memoryId: string): set<SharedMemory> {
    set s | s in rows.Values && s.memoryId == memoryId
  }

  /** The rows `WHERE sharedWithUserId = :userId OR sharedByUserId = :userId`. */
  function ForUser(rows: map<string, SharedMemory>, userId: string): set<SharedMemory> {
    set s | s in rows.Values && (s.sharedWithUserId == userId || s.sharedByUserId == userId)
  }

  /** `@Insert(onConflict = REPLACE)`. */
  function Insert(rows: map<string, SharedMemory>, s: SharedMemory): map<string, SharedMemory> {
    rows[s.id := s]
  }

  /** `@Delete`: the row with the same id goes. */
  function Delete(rows: map<string, SharedMemory>, s: SharedMemory): map<string, SharedMemory> {
    rows - {s.id}
  }

  /** `DELETE FROM shared_memories WHERE memoryId = :memoryId`. */
  function DeleteForEvent(rows: map<string, SharedMemory>, memoryId: string): map<string, SharedMemory> {
    map k | k in rows && rows[k].memoryId != memoryId :: rows[k]
  }

  /** After deleting a memory's shares none is left for it, every share of
      another memory is still there, and the rows that went are exactly
      the ones the memory's listing showed. */
  lemma DeleteForEventSpec(rows: map<string, SharedMemory>, memoryId: string, other: string)
    requires Keyed(rows)
    ensures var t := DeleteForEvent(rows, memoryId);
      && Keyed(t)
      && ForEvent(t, memoryId) == {}
      && (other != memoryId ==> ForEvent(t, other) == ForEvent(rows, other))
      && t.Values == rows.Values - ForEvent(rows, memoryId)
  {
    var t := DeleteForEvent(rows, memoryId);
    forall s | s in rows.Values - ForEvent(rows, memoryId)
      ensures s in t.Values
    {
      var k :| k in rows && rows[k] == s;
      assert t[k] == s;
    }
    forall s | s in t.Values
      ensures s in rows.Values - ForEvent(rows, memoryId)
    {
      var k :| k in t && t[k] == s;
      assert rows[k] == s;
    }
  }

  /** A REPLACE insert shows the new share in the listings of its memory
      and of both users, and replaces the row with the same id. */
  lemma InsertListed(rows: map<string, SharedMemory>, s: SharedMemory)
    requires Keyed(rows)
    ensures Keyed(Insert(rows, s))
    ensures s in ForEvent(Insert(rows, s), s.memoryId)
    ensures s in ForUser(Insert(rows, s), s.sharedWithUserId)
    ensures s in ForUser(Insert(rows, s), s.sharedByUserId)
    ensures s.id in rows ==> rows[s.id] !in Insert(rows, s).Values || rows[s.id] == s
  {
    var t := Insert(rows, s);
    assert t[s.id] == s;
  }

  /** The `shared_memories` table. */
  class SharedMemoryTable {
    var rows: map<string, SharedMemory>

    predicate Valid()
      reads this
    {
      Keyed(rows)
    }

    constructor()
      ensures rows == map[] && Valid()
    {
      rows := map[];
    }

    /** `getSharedMemoriesForEvent`. */
    method GetSharedMemoriesForEvent(memoryId: string) returns (r: seq<SharedMemory>)
      ensures multiset(r) == multiset(ForEvent(rows, memoryId))
      ensures forall i :: 0 <= i < |r| ==> r[i] in rows.Values && r[i].memoryId == memoryId
    {
      r := ListAll(ForEvent(rows, memoryId));
      forall i | 0 <= i < |r|
        ensures r[i] in rows.Values && r[i].memoryId == memoryId
      {
        assert r[i] in multiset(r);
      }
    }

    /** `getSharedMemoriesForUser`: the shares the user received or made. */
    method GetSharedMemoriesForUser(userId: string) returns (r: seq<SharedMemory>)
      ensures multiset(r) == multiset(ForUser(rows, userId))
    {
      r := ListAll(ForUser(rows, userId));
    }

    method InsertSharedMemory(s: SharedMemory)
      requires Valid()
      modifies this
      ensures Valid() && rows == Insert(old(rows), s)
    {
      rows := rows[s.id := s];
    }

    method DeleteSharedMemory(s: SharedMemory)
      requires Valid()
      modifies this
      ensures Valid() && rows == Delete(old(rows), s)
    {
      rows := rows - {s.id};
    }

    method DeleteSharedMemoriesForEvent(memoryId: string)
      requires Valid()
      modifies this
      ensures Valid() && rows == DeleteForEvent(old(rows), memoryId)
    {
      rows := map k | k in rows && rows[k].memoryId != memoryId :: rows[k];
    }
  }
}
