/** What the Room DAOs rely on from SQLite: an `INTEGER PRIMARY KEY
    AUTOINCREMENT` key, which Room declares for `autoGenerate = true`, and
    the exceptions a statement throws. The key is SQLite's 64-bit rowid;
    the entities read it back into a Kotlin `Int`. */
module Room {
  import opened Records

  /** The largest rowid SQLite hands out, `2^63 - 1`. */
  const ROWID_MAX := 0x7fff_ffff_ffff_ffff

  /** `Int.MAX_VALUE`, the largest id an entity holds unchanged. */
  const INT32_MAX := 0x7fff_ffff

  /** Why a statement throws. */
  datatype SqlError =
    /** `SQLiteConstraintException`: `OnConflictStrategy.ABORT` met a row
        with the same key. */
    | ConstraintFailed
    /** `SQLiteFullException`: AUTOINCREMENT has already handed out the
        largest rowid. */
    | DatabaseFull

  /** The key AUTOINCREMENT gives a new row: one past the largest key the
      table has ever held, which `sqlite_sequence` records. */
  function NextKey(sequence: int): int {
    sequence + 1
  }

  /** `sqlite_sequence` after a row with key `k` is stored. */
  function Bumped(sequence: int, k: int): (s: int)
    ensures s >= sequence && s >= k
    ensures s == sequence || s == k
  {
    if k > sequence then k else sequence
  }

  /** The entity's `Int` id when Room's cursor reads a row stored under key
      `k` (`Cursor.getInt` of a 64-bit column keeps its low 32 bits): the
      key itself exactly when it fits, and always a value congruent to it
      modulo `2^32`. */
  function ReadBackId(k: int): (id: Int32)
    ensures id == k <==> -0x8000_0000 <= k <= INT32_MAX
    ensures (k - id) % 0x1_0000_0000 == 0
  {
    (k + 0x8000_0000) % 0x1_0000_0000 - 0x8000_0000
  }
}
