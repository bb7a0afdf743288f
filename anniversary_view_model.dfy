/** `AnniversaryViewModel`: forwarding to the anniversary table, the
    editing state, and the two day counts the anniversary screen shows.
    "Today" (`LocalDate.now()`) is a parameter. */
module AnniversaryViewModel {
  import opened Wrappers
  import opened Dates
  import opened Records
  import AnniversaryDao
  import Room

  /** `AnniversaryUiState`; every field has the source's default. */
  datatype AnniversaryUiState = AnniversaryUiState(
    editingAnniversary: Option<Anniversary> := None,
    isLoading: bool := false,
    errorMessage: Option<string> := None)

  /** `calculateDaysSince(date)`: positive for a past date, zero for today,
      negative for a future date. */
  function DaysSince(date: CalendarDate, today: CalendarDate): (n: int)
    ensures n > 0 <==> Before(date, today)
    ensures n == 0 <==> date == today
    ensures n < 0 <==> Before(today, date)
  {
    DaysBetweenSign(date, today);
    DaysBetween(date, today)
  }

  /** `calculateDaysUntil(date)`: the same count seen from the other side. */
  function DaysUntil(date: CalendarDate, today: CalendarDate): (n: int)
    ensures n == -DaysSince(date, today)
    ensures n > 0 <==> Before(today, date)
  {
    DaysBetweenSign(today, date);
    DaysBetween(today, date)
  }

  /** Each day that passes adds one to the days since a date and takes one
      from the days until it. */
  lemma NextDayShiftsCounts(date: CalendarDate, today: CalendarDate)
    requires today != Date(9999, 12, 31)
    ensures DaysSince(date, NextDay(today)) == DaysSince(date, today) + 1
    ensures DaysUntil(date, NextDay(today)) == DaysUntil(date, today) - 1
  {
    NextDayCounts(today);
  }

  class AnniversaryViewModel {
    const table: AnniversaryDao.AnniversaryTable
    var uiState: AnniversaryUiState
    var currentAnniversary: Option<Anniversary>

    predicate Valid()
      reads this, table
    {
      table.Valid()
    }

    constructor(table: AnniversaryDao.AnniversaryTable)
      requires table.Valid()
      ensures this.table == table && Valid()
      ensures uiState == AnniversaryUiState() && currentAnniversary == None
    {
      this.table := table;
      uiState := AnniversaryUiState();
      currentAnniversary := None;
    }

    /** `insertAnniversary`: a REPLACE insert in `viewModelScope.launch`,
        which has no exception handler, so an exception the insert throws is
        uncaught and ends the app's process; `uncaught` is that exception. */
    method InsertAnniversary(a: Anniversary) returns (uncaught: Option<Room.SqlError>)
      requires Valid()
      modifies table
      ensures Valid()
      ensures var t := AnniversaryDao.Insert(old(table.rows), old(table.sequence), a);
        && table.rows == t.rows && table.sequence == t.sequence && uncaught == t.error
    {
      uncaught := table.InsertAnniversary(a);
    }

    method UpdateAnniversary(a: Anniversary)
      requires Valid()
      modifies table
      ensures Valid()
      ensures table.rows == AnniversaryDao.Update(old(table.rows), a) && table.sequence == old(table.sequence)
    {
      table.UpdateAnniversary(a);
    }

    method DeleteAnniversary(a: Anniversary)
      requires Valid()
      modifies table
      ensures Valid()
      ensures table.rows == AnniversaryDao.DeleteById(old(table.rows), a.id) && table.sequence == old(table.sequence)
    {
      table.DeleteAnniversary(a);
    }

    /** `getAnniversaryById`: the current anniversary becomes that row, or
        null. */
    method GetAnniversaryById(id: Int32)
      requires Valid()
      modifies this
      ensures Valid() && uiState == old(uiState)
      ensures currentAnniversary.Some? <==> id in table.rows
      ensures currentAnniversary.Some? ==> currentAnniversary.value == table.rows[id]
    {
      currentAnniversary := table.GetAnniversaryById(id);
    }

    method UpdateEditingAnniversary(a: Option<Anniversary>)
      requires Valid()
      modifies this
      ensures Valid() && currentAnniversary == old(currentAnniversary)
      ensures uiState == old(uiState).(editingAnniversary := a)
    {
      uiState := uiState.(editingAnniversary := a);
    }
  }
}
