/** `MemoryEventDao` over the `memory_events` table: rows keyed by their
    auto-generated id, a plain `@Insert` that aborts on an existing id, and
    the listing newest first. */
module MemoryEventDao {
  import opened Wrappers
  import opened Dates
  import opened Records
  import opened Listing
  import opened Room

  /** Every row, as Room reads it back, carries the `Int` id of its key, and
      no key exceeds the largest `sqlite_sequence` has recorded. */
  predicate Consistent(rows: map<int, MemoryEvent>, sequence: int) {
    && sequence >= 0
    && forall k :: k in rows ==> rows[k].id == ReadBackId(k) && k <= sequence
  }

  /** The table after an insert, and what the insert returned or threw. */
  datatype Insertion = Insertion(rows: map<int, MemoryEvent>, sequence: int, result: Result<int, SqlError>)

  /** `@Insert` (`OnConflictStrategy.ABORT`): Room binds the id as
      `nullif(id, 0)`, so id 0 takes the next AUTOINCREMENT key and the
      call returns it as a `Long`; any other id is stored as given, unless a
      row already has it. */
  function Insert(rows: map<int, MemoryEvent>, sequence: int, e: MemoryEvent): Insertion
    requires Consistent(rows, sequence)
  {
    if e.id == UNSET_ID then
      var key := NextKey(sequence);
      if key > ROWID_MAX then Insertion(rows, sequence, Thrown(DatabaseFull))
      else Insertion(rows[key := e.(id := ReadBackId(key))], key, Ok(key))
    else if e.id in rows then Insertion(rows, sequence, Thrown(ConstraintFailed))
    else Insertion(rows[e.id := e], Bumped(sequence, e.id), Ok(e.id))
  }

  /** `@Update`: the row with the same id is replaced; no row, no change. */
  function Update(rows: map<int, MemoryEvent>, e: MemoryEvent): map<int, MemoryEvent> {
    if e.id in rows then rows[e.id := e] else rows
  }

  /** `@Delete`: the row with the same id goes. */
  function Delete(rows: map<int, MemoryEvent>, e: MemoryEvent): map<int, MemoryEvent> {
    rows - {e.id}
  }

  /** An insert keeps the table consistent. A completed insert stores the
      memory under a key no row had, the fresh key when its id is 0, changes
      no other row and returns the key; the row reads back with the memory's
      own id, or with the key truncated to an `Int` when the key is fresh.
      An insert throws, changing nothing, exactly when the id is taken or
      no rowid is left. */
  lemma InsertSpec(rows: map<int, MemoryEvent>, sequence: int, e: MemoryEvent)
    requires Consistent(rows, sequence)
    ensures var t := Insert(rows, sequence, e);
      && Consistent(t.rows, t.sequence)
      && (t.result.Ok? ==>
            && t.result.value !in rows
            && t.rows == rows[t.result.value := e.(id := ReadBackId(t.result.value))]
            && (e.id != UNSET_ID ==> t.result.value == e.id && t.rows[e.id] == e)
            && (e.id == UNSET_ID ==> t.result.value == t.sequence == NextKey(sequence)))
      && (t.result.Thrown? ==> t.rows == rows && t.sequence == sequence)
      && (t.result == Thrown(ConstraintFailed) <==> e.id != UNSET_ID && e.id in rows)
      && (t.result == Thrown(DatabaseFull) <==> e.id == UNSET_ID && sequence >= ROWID_MAX)
  {
    if e.id == UNSET_ID && NextKey(sequence) <= ROWID_MAX {
      var key := NextKey(sequence);
      assert e.(id := ReadBackId(key)).id == ReadBackId(key);
    } else if e.id != UNSET_ID {
      assert ReadBackId(e.id) == e.id;
    }
  }

  /** Past `Int.MAX_VALUE` the fresh key no longer fits the entity: a memory
      added when `sqlite_sequence` is `2^31 - 1` (as after importing a
      memory archived with that id) is stored under `2^31`, the insert
      returns `2^31`, and the row reads back with id `-2^31`. Deleting or
      updating the memory as read back then addresses key `-2^31` and leaves
      the row where it is. */
  lemma KeyPastIntMax(e: MemoryEvent)
    requires e.id == UNSET_ID
    ensures var t := Insert(map[], INT32_MAX, e);
      && t.result == Ok(0x8000_0000)
      && t.rows[0x8000_0000].id == -0x8000_0000
      && Delete(t.rows, t.rows[0x8000_0000]) == t.rows
      && Update(t.rows, t.rows[0x8000_0000]) == t.rows
  {
    var t := Insert(map[], INT32_MAX, e);
    assert ReadBackId(0x8000_0000) == -0x8000_0000;
    assert t.rows.Keys == {0x8000_0000};
  }

  /** AUTOINCREMENT never hands out a key the table has held: after a row is
      deleted, a new memory never gets its id. */
  lemma DeletedIdNotReused(rows: map<int, MemoryEvent>, sequence: int, gone: MemoryEvent, e: MemoryEvent)
    requires Consistent(rows, sequence) && gone.id in rows
    requires e.id == UNSET_ID
    ensures Consistent(Delete(rows, gone), sequence)
    ensures Insert(Delete(rows, gone), sequence, e).result != Ok(gone.id)
  {
    assert gone.id <= sequence;
    assert rows[gone.id].id == ReadBackId(gone.id);
  }

  /** An update keeps the table consistent and changes at most the row with
      the memory's id, to that memory. */
  lemma UpdateSpec(rows: map<int, MemoryEvent>, sequence: int, e: MemoryEvent)
    requires Consistent(rows, sequence)
    ensures Consistent(Update(rows, e), sequence)
    ensures Update(rows, e).Keys == rows.Keys
    ensures forall k :: k in rows && k != e.id ==> Update(rows, e)[k] == rows[k]
    ensures e.id in rows ==> Update(rows, e)[e.id] == e
  {
  }

  /** A delete keeps the table consistent and removes exactly the row with
      the memory's id; the other fields of the memory passed do not matter. */
  lemma DeleteSpec(rows: map<int, MemoryEvent>, sequence: int, e: MemoryEvent, f: MemoryEvent)
    requires Consistent(rows, sequence)
    ensures Consistent(Delete(rows, e), sequence)
    ensures Delete(rows, e).Keys == rows.Keys - {e.id}
    ensures forall k :: k in Delete(rows, e) ==> Delete(rows, e)[k] == rows[k]
    ensures f.id == e.id ==> Delete(rows, f) == Delete(rows, e)
  {
  }

  /** The `memory_events` table. */
  class MemoryEventTable {
    var rows: map<int, MemoryEvent>
    var sequence: int

    predicate Valid()
      reads this
    {
      Consistent(rows, sequence)
    }

    /** A new database: no rows, no key handed out yet. */
    constructor()
      ensures rows == map[] && sequence == 0
      ensures Valid()
    {
      rows := map[];
      sequence := 0;
    }

    /** `getAllEvents`: every row once, newest date first. */
    method GetAllEvents() returns (r: seq<MemoryEvent>)
      requires Valid()
      ensures multiset(r) == multiset(rows.Values)
      ensures OrderedByDateText(r, MemoryDate, true)
    {
      r := SortByDate(rows.Values, MemoryDate, true);
    }

    /** `getEventById`: the row with that id, or null. */
    function GetEventById(id: Int32): (r: Option<MemoryEvent>)
      requires Valid()
      reads this
      ensures r.Some? <==> id in rows
      ensures r.Some? ==> r.value in rows.Values && r.value.id == id
    {
      if id in rows then Some(rows[id]) else None
    }

    method InsertEvent(e: MemoryEvent) returns (r: Result<int, SqlError>)
      requires Valid()
      modifies this
      ensures Valid()
      ensures Insertion(rows, sequence, r) == Insert(old(rows), old(sequence), e)
    {
      if e.id == UNSET_ID {
        var key := sequence + 1;
        if key > ROWID_MAX {
          return Thrown(DatabaseFull);
        }
        rows := rows[key := e.(id := ReadBackId(key))];
        sequence := key;
        r := Ok(key);
      } else if e.id in rows {
        r := Thrown(ConstraintFailed);
      } else {
        rows := rows[e.id := e];
        if e.id > sequence {
          sequence := e.id;
        }
        r := Ok(e.id);
      }
      InsertSpec(old(rows), old(sequence), e);
    }

    method UpdateEvent(e: MemoryEvent)
      requires Valid()
      modifies this
      ensures Valid()
      ensures rows == Update(old(rows), e) && sequence == old(sequence)
    {
      if e.id in rows {
        rows := rows[e.id := e];
      }
    }

    method DeleteEvent(e: MemoryEvent)
      requires Valid()
      modifies this
      ensures Valid()
      ensures rows == Delete(old(rows), e) && sequence == old(sequence)
    {
      rows := rows - {e.id};
    }

    /** `DELETE FROM memory_events`: `sqlite_sequence` keeps its value, so
        ids are not reused after a clear either. */
    method DeleteAllEvents()
      requires Valid()
      modifies this
      ensures Valid()
      ensures rows == map[] && sequence == old(sequence)
    {
      rows := map[];
    }

    /** `ORDER BY RANDOM() LIMIT 1`: some row, and null only for an empty
        table. */
    method GetRandomEvent() returns (r: Option<MemoryEvent>)
      ensures r.None? <==> rows == map[]
      ensures r.Some? ==> r.value in rows.Values
    {
      if rows == map[] {
        return None;
      }
      var row :| row in rows.Values;
      r := Some(row);
    }
  }
}
