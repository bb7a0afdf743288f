/** The anniversary screen: the days label on each card, the add/edit
    dialog's confirm rule, and the add, edit and delete dialogs' effect on
    the table. "Today" and the clock are parameters. */
module AnniversaryScreen {
  import opened Wrappers
  import opened Text
  import opened Dates
  import opened Records
  import AnniversaryDao
  import Room
  import AnniversaryViewModel

  /** The card's day count: how long ago, or for a future date how long
      until. */
  function DaysLabel(daysSince: int): (shown: string)
    ensures daysSince >= 0 ==> StartsWith(shown, "已经过去 ")
    ensures daysSince < 0 ==> StartsWith(shown, "还有 ")
  {
    if daysSince >= 0 then "已经过去 " + Decimal(daysSince) + " 天"
    else "还有 " + Decimal(-daysSince) + " 天"
  }

  /** The first character tells a past from a future count. */
  lemma LabelHead(daysSince: int)
    ensures DaysLabel(daysSince)[0] == (if daysSince >= 0 then '已' else '还')
  {
  }

  /** Two different counts never show the same label. */
  lemma DaysLabelInjective(a: int, b: int)
    requires DaysLabel(a) == DaysLabel(b)
    ensures a == b
  {
    if a >= 0 && b >= 0 {
      DecimalNameInjective("已经过去 ", " 天", a, b);
    } else if a < 0 && b < 0 {
      DecimalNameInjective("还有 ", " 天", -a, -b);
    } else {
      LabelHead(a);
      LabelHead(b);
      assert false;
    }
  }

  /** The card of an anniversary on `today`: a date not yet reached shows
      the days until it, today or a past date the days since. */
  lemma CardLabel(date: CalendarDate, today: CalendarDate)
    ensures Before(today, date) ==>
      DaysLabel(AnniversaryViewModel.DaysSince(date, today))
        == "还有 " + Decimal(AnniversaryViewModel.DaysUntil(date, today)) + " 天"
    ensures !Before(today, date) ==>
      DaysLabel(AnniversaryViewModel.DaysSince(date, today))
        == "已经过去 " + Decimal(AnniversaryViewModel.DaysSince(date, today)) + " 天"
    ensures date == today ==> DaysLabel(AnniversaryViewModel.DaysSince(date, today)) == "已经过去 0 天"
  {
    if date == today {
      assert Decimal(0) == "0";
    }
  }

  /** What the dialog's fields hold. */
  datatype DialogForm = DialogForm(title: string, description: string, date: CalendarDate, isImportant: bool)

  /** The dialog opens on the anniversary being edited, or empty on today. */
  function InitialForm(anniversary: Option<Anniversary>, today: CalendarDate): (f: DialogForm)
    ensures anniversary.Some? ==>
      f == DialogForm(anniversary.value.title, anniversary.value.description, anniversary.value.date, anniversary.value.isImportant)
    ensures anniversary.None? ==> f == DialogForm("", "", today, false)
  {
    match anniversary
    case Some(a) => DialogForm(a.title, a.description, a.date, a.isImportant)
    case None => DialogForm("", "", today, false)
  }

  /** The confirm button: nothing with a blank name; otherwise an
      anniversary with the dialog's fields under the edited one's id (or 0
      for a new one), created now. */
  function Confirmed(anniversary: Option<Anniversary>, form: DialogForm, now: Int64): (r: Option<Anniversary>)
    ensures r.Some? <==> !IsBlank(form.title)
    ensures r.Some? ==>
      && r.value.title == form.title && r.value.description == form.description
      && r.value.date == form.date && r.value.isImportant == form.isImportant
      && r.value.createdAt == now
      && r.value.id == (if anniversary.Some? then anniversary.value.id else UNSET_ID)
  {
    if IsBlank(form.title) then None
    else
      var id := if anniversary.Some? then anniversary.value.id else UNSET_ID;
      Some(Anniversary(id, form.title, form.date, form.description, form.isImportant, now))
  }

  /** Confirming an edit dialog without touching it stores the same
      anniversary except for its creation time, which becomes now. */
  lemma UntouchedEditResetsCreation(a: Anniversary, today: CalendarDate, now: Int64)
    requires !IsBlank(a.title)
    ensures Confirmed(Some(a), InitialForm(Some(a), today), now) == Some(a.(createdAt := now))
  {
  }

  /** Confirming an edit replaces the stored row under the edited id and
      keeps every other row; a row deleted meanwhile is not brought back. */
  lemma EditReplacesRow(rows: map<int, Anniversary>, a: Anniversary, form: DialogForm, now: Int64)
    requires !IsBlank(form.title)
    ensures var b := Confirmed(Some(a), form, now).value;
      var t := AnniversaryDao.Update(rows, b);
      && t.Keys == rows.Keys
      && (a.id in rows ==> t[a.id] == b)
      && (forall k :: k in rows && k != a.id ==> t[k] == rows[k])
  {
  }

  /** The screen's dialog state and the view model behind it. */
  class AnniversaryScreen {
    const vm: AnniversaryViewModel.AnniversaryViewModel
    var showAddDialog: bool
    var showEditDialog: bool
    var showDeleteDialog: bool
    var selectedAnniversary: Option<Anniversary>

    predicate Valid()
      reads this, vm, vm.table
    {
      vm.Valid()
    }

    constructor(vm: AnniversaryViewModel.AnniversaryViewModel)
      requires vm.Valid()
      ensures this.vm == vm && Valid()
      ensures !showAddDialog && !showEditDialog && !showDeleteDialog && selectedAnniversary == None
    {
      this.vm := vm;
      showAddDialog, showEditDialog, showDeleteDialog := false, false, false;
      selectedAnniversary := None;
    }

    /** The "+" button. */
    method OnAddClick()
      modifies this
      ensures showAddDialog
      ensures showEditDialog == old(showEditDialog) && showDeleteDialog == old(showDeleteDialog)
      ensures selectedAnniversary == old(selectedAnniversary)
    {
      showAddDialog := true;
    }

    /** A card's edit button: the anniversary is selected and marked as the
        one being edited. */
    method OnEditClick(a: Anniversary)
      requires Valid()
      modifies this, vm
      ensures Valid() && vm.currentAnniversary == old(vm.currentAnniversary)
      ensures selectedAnniversary == Some(a) && showEditDialog
      ensures vm.uiState == old(vm.uiState).(editingAnniversary := Some(a))
      ensures showAddDialog == old(showAddDialog) && showDeleteDialog == old(showDeleteDialog)
    {
      selectedAnniversary := Some(a);
      vm.UpdateEditingAnniversary(Some(a));
      showEditDialog := true;
    }

    /** A card's delete button: the anniversary is selected for the
        confirmation. */
    method OnDeleteClick(a: Anniversary)
      modifies this
      ensures selectedAnniversary == Some(a) && showDeleteDialog
      ensures showAddDialog == old(showAddDialog) && showEditDialog == old(showEditDialog)
    {
      selectedAnniversary := Some(a);
      showDeleteDialog := true;
    }

    /** The add dialog's confirm button: a valid form is inserted as a new
        anniversary and the dialog closes; a blank name does nothing.
        `uncaught` is the exception of the insert, which ends the app's
        process. */
    method ConfirmAdd(form: DialogForm, now: Int64) returns (uncaught: Option<Room.SqlError>)
      requires Valid() && showAddDialog
      modifies this, vm.table
      ensures Valid()
      ensures IsBlank(form.title) ==>
        showAddDialog && uncaught.None? && vm.table.rows == old(vm.table.rows) && vm.table.sequence == old(vm.table.sequence)
      ensures !IsBlank(form.title) ==>
        var t := AnniversaryDao.Insert(old(vm.table.rows), old(vm.table.sequence), Confirmed(None, form, now).value);
        && !showAddDialog
        && vm.table.rows == t.rows && vm.table.sequence == t.sequence && uncaught == t.error
      ensures selectedAnniversary == old(selectedAnniversary)
      ensures showEditDialog == old(showEditDialog) && showDeleteDialog == old(showDeleteDialog)
    {
      uncaught := None;
      var confirmed := Confirmed(None, form, now);
      if confirmed.Some? {
        uncaught := vm.InsertAnniversary(confirmed.value);
        showAddDialog := false;
      }
    }

    method DismissAdd()
      modifies this
      ensures !showAddDialog && selectedAnniversary == old(selectedAnniversary)
      ensures showEditDialog == old(showEditDialog) && showDeleteDialog == old(showDeleteDialog)
    {
      showAddDialog := false;
    }

    /** The edit dialog's confirm button: a valid form updates the selected
        anniversary's row, and the dialog, the selection and the editing
        state are cleared; a blank name does nothing. */
    method ConfirmEdit(form: DialogForm, now: Int64)
      requires Valid() && showEditDialog && selectedAnniversary.Some?
      modifies this, vm, vm.table
      ensures Valid() && vm.currentAnniversary == old(vm.currentAnniversary)
      ensures showAddDialog == old(showAddDialog) && showDeleteDialog == old(showDeleteDialog)
      ensures IsBlank(form.title) ==>
        && showEditDialog && selectedAnniversary == old(selectedAnniversary)
        && vm.uiState == old(vm.uiState)
        && vm.table.rows == old(vm.table.rows) && vm.table.sequence == old(vm.table.sequence)
      ensures !IsBlank(form.title) ==>
        var a := Confirmed(old(selectedAnniversary), form, now).value;
        && !showEditDialog && selectedAnniversary == None
        && vm.uiState == old(vm.uiState).(editingAnniversary := None)
        && vm.table.rows == AnniversaryDao.Update(old(vm.table.rows), a)
        && vm.table.sequence == old(vm.table.sequence)
    {
      var confirmed := Confirmed(selectedAnniversary, form, now);
      if confirmed.Some? {
        vm.UpdateAnniversary(confirmed.value);
        showEditDialog := false;
        selectedAnniversary := None;
        vm.UpdateEditingAnniversary(None);
      }
    }

    method DismissEdit()
      requires Valid()
      modifies this, vm
      ensures Valid() && vm.currentAnniversary == old(vm.currentAnniversary)
      ensures !showEditDialog && selectedAnniversary == None
      ensures showAddDialog == old(showAddDialog) && showDeleteDialog == old(showDeleteDialog)
      ensures vm.uiState == old(vm.uiState).(editingAnniversary := None)
    {
      showEditDialog := false;
      selectedAnniversary := None;
      vm.UpdateEditingAnniversary(None);
    }

    /** The delete confirmation: the selected anniversary's row goes. */
    method ConfirmDelete()
      requires Valid() && showDeleteDialog && selectedAnniversary.Some?
      modifies this, vm.table
      ensures Valid()
      ensures vm.table.rows == AnniversaryDao.DeleteById(old(vm.table.rows), old(selectedAnniversary).value.id)
      ensures vm.table.sequence == old(vm.table.sequence)
      ensures !showDeleteDialog && selectedAnniversary == None
      ensures showAddDialog == old(showAddDialog) && showEditDialog == old(showEditDialog)
    {
      vm.DeleteAnniversary(selectedAnniversary.value);
      showDeleteDialog := false;
      selectedAnniversary := None;
    }

    method DismissDelete()
      modifies this
      ensures !showDeleteDialog && selectedAnniversary == None
      ensures showAddDialog == old(showAddDialog) && showEditDialog == old(showEditDialog)
    {
      showDeleteDialog := false;
      selectedAnniversary := None;
    }
  }
}
