/** `AnniversaryDao` over the `anniversaries` table: rows keyed by their
    auto-generated id, an insert that replaces a row with the same id, and
    the listing in date order. */
module AnniversaryDao {
  import opened Wrappers
  import opened Dates
  import opened Records
  import opened Listing
  import opened Room

  /** Every row, as Room reads it back, carries the `Int` id of its key, and
      no key exceeds the largest `sqlite_sequence` has recorded. */
  predicate Consistent(rows: map<int, Anniversary>, sequence: int) {
    && sequence >= 0
    && forall k :: k in rows ==> rows[k].id == ReadBackId(k) && k <= sequence
  }

  /** The table after an insert, or why it threw. */
  datatype Insertion = Insertion(rows: map<int, Anniversary>, sequence: int, error: Option<SqlError>)

  /** `@Insert(onConflict = REPLACE)`: id 0 takes the next AUTOINCREMENT
      key; any other id is stored as given, replacing a row with that id. */
  function Insert(rows: map<int, Anniversary>, sequence: int, a: Anniversary): Insertion
    requires Consistent(rows, sequence)
  {
    if a.id == UNSET_ID then
      var key := NextKey(sequence);
      if key > ROWID_MAX then Insertion(rows, sequence, Some(DatabaseFull))
      else Insertion(rows[key := a.(id := ReadBackId(key))], key, None)
    else Insertion(rows[a.id := a], Bumped(sequence, a.id), None)
  }

  /** `@Update`: the row with the same id is replaced; no row, no change. */
  function Update(rows: map<int, Anniversary>, a: Anniversary): map<int, Anniversary> {
    if a.id in rows then rows[a.id := a] else rows
  }

  /** `DELETE … WHERE id = :id`, which is also what `@Delete` runs. */
  function DeleteById(rows: map<int, Anniversary>, id: Int32): map<int, Anniversary> {
    rows - {id}
  }

  /** An insert keeps the table consistent; it throws only when a fresh key
      is needed and no rowid is left, changing nothing. Otherwise the
      anniversary is stored, under its own id, replacing any row there, or,
      when its id is 0, under the fresh key, reading back with that key
      truncated to an `Int`; no other row changes. */
  lemma InsertSpec(rows: map<int, Anniversary>, sequence: int, a: Anniversary)
    requires Consistent(rows, sequence)
    ensures var t := Insert(rows, sequence, a);
      && Consistent(t.rows, t.sequence)
      && (t.error.Some? <==> a.id == UNSET_ID && sequence >= ROWID_MAX)
      && (t.error.Some? ==> t.error == Some(DatabaseFull) && t.rows == rows && t.sequence == sequence)
      && (t.error.None? && a.id != UNSET_ID ==> t.rows == rows[a.id := a])
      && (t.error.None? && a.id == UNSET_ID ==>
            && t.sequence == NextKey(sequence) && t.sequence !in rows
            && t.rows == rows[t.sequence := a.(id := ReadBackId(t.sequence))])
  {
    if a.id == UNSET_ID && NextKey(sequence) <= ROWID_MAX {
      var key := NextKey(sequence);
      assert a.(id := ReadBackId(key)).id == ReadBackId(key);
    } else if a.id != UNSET_ID {
      assert ReadBackId(a.id) == a.id;
    }
  }

  /** Inserting an anniversary that has an id, and then updating with it, is
      the same as inserting it: REPLACE already overwrote the row. */
  lemma ReplaceThenUpdate(rows: map<int, Anniversary>, sequence: int, a: Anniversary)
    requires Consistent(rows, sequence) && a.id != UNSET_ID
    ensures Update(Insert(rows, sequence, a).rows, a) == Insert(rows, sequence, a).rows
  {
  }

  /** The `anniversaries` table. */
  class AnniversaryTable {
    var rows: map<int, Anniversary>
    var sequence: int

    predicate Valid()
      reads this
    {
      Consistent(rows, sequence)
    }

    constructor()
      ensures rows == map[] && sequence == 0
      ensures Valid()
    {
      rows := map[];
      sequence := 0;
    }

    /** `getAllAnniversaries`: every row once, earliest date first. */
    method GetAllAnniversaries() returns (r: seq<Anniversary>)
      requires Valid()
      ensures multiset(r) == multiset(rows.Values)
      ensures OrderedByDateText(r, AnniversaryDate, false)
    {
      r := SortByDate(rows.Values, AnniversaryDate, false);
    }

    /** `getAnniversaryById`: the row with that id, or null. */
    function GetAnniversaryById(id: Int32): (r: Option<Anniversary>)
      requires Valid()
      reads this
      ensures r.Some? <==> id in rows
      ensures r.Some? ==> r.value in rows.Values && r.value.id == id
    {
      if id in rows then Some(rows[id]) else None
    }

    method InsertAnniversary(a: Anniversary) returns (error: Option<SqlError>)
      requires Valid()
      modifies this
      ensures Valid()
      ensures Insertion(rows, sequence, error) == Insert(old(rows), old(sequence), a)
    {
      error := None;
      if a.id == UNSET_ID {
        var key := sequence + 1;
        if key > ROWID_MAX {
          return Some(DatabaseFull);
        }
        rows := rows[key := a.(id := ReadBackId(key))];
        sequence := key;
      } else {
        rows := rows[a.id := a];
        if a.id > sequence {
          sequence := a.id;
        }
      }
      InsertSpec(old(rows), old(sequence), a);
    }

    method UpdateAnniversary(a: Anniversary)
      requires Valid()
      modifies this
      ensures Valid()
      ensures rows == Update(old(rows), a) && sequence == old(sequence)
    {
      if a.id in rows {
        rows := rows[a.id := a];
      }
    }

    /** `deleteAnniversary(a)`: only the id of `a` matters. */
    method DeleteAnniversary(a: Anniversary)
      requires Valid()
      modifies this
      ensures Valid()
      ensures rows == DeleteById(old(rows), a.id) && sequence == old(sequence)
    {
      rows := rows - {a.id};
    }

    method DeleteAnniversaryById(id: Int32)
      requires Valid()
      modifies this
      ensures Valid()
      ensures rows == DeleteById(old(rows), id) && sequence == old(sequence)
    {
      rows := rows - {id};
    }
  }
}
