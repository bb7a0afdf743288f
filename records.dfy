/** The records the app stores and exchanges: `MemoryEvent`, `Anniversary`,
    `User`, `SharedMemory` and `UserProfile`, with the defaults their Kotlin
    constructors declare. A default that reads the clock becomes a
    parameter. */
module Records {
  import opened Wrappers
  import opened Dates

  /** Kotlin `Int` and `Long`. */
  type Int32 = x: int | -0x8000_0000 <= x < 0x8000_0000
  type Int64 = x: int | -0x8000_0000_0000_0000 <= x < 0x8000_0000_0000_0000

  /** The value of an auto-generated key that asks the store to assign one. */
  const UNSET_ID: Int32 := 0

  /** A memory: `photoPaths` is an ordered list of absolute paths and
      `audioPath` is the recording, if any. */
  datatype MemoryEvent = MemoryEvent(
    id: Int32 := UNSET_ID,
    title: string,
    date: CalendarDate,
    message: string,
    photoPaths: seq<string> := [],
    audioPath: Option<string> := None,
    createdAt: Int64)

  datatype Anniversary = Anniversary(
    id: Int32 := UNSET_ID,
    title: string,
    date: CalendarDate,
    description: string := "",
    isImportant: bool := false,
    createdAt: Int64)

  /** A user, keyed by a caller-chosen string id. */
  datatype User = User(
    id: string,
    name: string,
    avatar: Option<string> := None,
    isCurrentUser: bool := false,
    createdAt: Int64)

  datatype SharedMemory = SharedMemory(
    id: string,
    memoryId: string,
    sharedWithUserId: string,
    sharedByUserId: string,
    sharedAt: Int64,
    canEdit: bool := true)

  datatype UserProfile = UserProfile(
    user: User,
    sharedMemoriesCount: Int32 := 0,
    totalMemoriesCount: Int32 := 0)

  /** `MemoryEvent(title = …, date = …, message = …)` at clock reading `now`:
      the store assigns the id, there are no photos and no recording. */
  function NewMemoryEvent(title: string, date: CalendarDate, message: string, now: Int64): (e: MemoryEvent)
    ensures e.id == UNSET_ID && e.photoPaths == [] && e.audioPath.None?
    ensures e.title == title && e.date == date && e.message == message && e.createdAt == now
  {
    MemoryEvent(title := title, date := date, message := message, createdAt := now)
  }

  /** `Anniversary(title = …, date = …)` at clock reading `now`. */
  function NewAnniversary(title: string, date: CalendarDate, now: Int64): (a: Anniversary)
    ensures a.id == UNSET_ID && a.description == "" && !a.isImportant
    ensures a.title == title && a.date == date && a.createdAt == now
  {
    Anniversary(title := title, date := date, createdAt := now)
  }

  /** `User(id = …, name = …)` at clock reading `now`. */
  function NewUser(id: string, name: string, now: Int64): (u: User)
    ensures u.avatar.None? && !u.isCurrentUser
    ensures u.id == id && u.name == name && u.createdAt == now
  {
    User(id := id, name := name, createdAt := now)
  }

  /** `SharedMemory(…)` without `canEdit`: sharing grants editing. */
  function NewSharedMemory(id: string, memoryId: string, sharedWith: string, sharedBy: string, now: Int64): (s: SharedMemory)
    ensures s.canEdit
    ensures s.id == id && s.memoryId == memoryId && s.sharedWithUserId == sharedWith
    ensures s.sharedByUserId == sharedBy && s.sharedAt == now
  {
    SharedMemory(id, memoryId, sharedWith, sharedBy, now)
  }

  /** `UserProfile(user)`: both counters start at zero. */
  function NewUserProfile(user: User): (p: UserProfile)
    ensures p.user == user && p.sharedMemoriesCount == 0 && p.totalMemoriesCount == 0
  {
    UserProfile(user)
  }

  /** The `date` column both listings sort on. */
  function MemoryDate(m: MemoryEvent): CalendarDate {
    m.date
  }

  function AnniversaryDate(a: Anniversary): CalendarDate {
    a.date
  }
}
