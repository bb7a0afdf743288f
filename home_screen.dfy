/** The home screen's backup actions: the import callback, which rewrites
    each archived memory's media paths into this device's media directories
    and inserts it, the export and text-export actions, and when the menu
    enables them. */
module HomeScreen {
  import opened Wrappers
  import opened Dates
  import opened Paths
  import opened Records
  import opened Zip
  import opened Files
  import opened FileUtils
  import opened Snapshot
  import opened ExportImportUtils
  import TextExport
  import MemoryEventDao
  import Room
  import MemoryViewModel

  // ---------------------------------------------------------------------
  // The path rewrite

  /** `File(dir, File(path).name).absolutePath`. */
  function RemapPath(p: Path, dir: Path): Path {
    Join(dir, BaseName(p))
  }

  /** `memory.copy(photoPaths = …, audioPath = …)` with every path moved into
      the directory the import writes that kind of media to. */
  function Remapped(m: MemoryEvent, imagesDir: Path, audioDir: Path): (r: MemoryEvent)
    ensures |r.photoPaths| == |m.photoPaths|
    ensures r.audioPath.Some? <==> m.audioPath.Some?
    ensures r.(photoPaths := m.photoPaths, audioPath := m.audioPath) == m
  {
    m.(photoPaths := seq(|m.photoPaths|, i requires 0 <= i < |m.photoPaths| => RemapPath(m.photoPaths[i], imagesDir)),
       audioPath := match m.audioPath case None => None case Some(a) => Some(RemapPath(a, audioDir)))
  }

  function RemappedAll(ms: seq<MemoryEvent>, imagesDir: Path, audioDir: Path): (rs: seq<MemoryEvent>)
    ensures |rs| == |ms|
  {
    seq(|ms|, i requires 0 <= i < |ms| => Remapped(ms[i], imagesDir, audioDir))
  }

  /** A path that names a file keeps its name and lands directly in the
      target directory. */
  lemma RemapPathKeepsName(p: Path, dir: Path)
    requires BaseName(p) != ""
    ensures BaseName(RemapPath(p, dir)) == BaseName(p) && Parent(RemapPath(p, dir)) == Some(dir)
  {
    JoinSplits(dir, BaseName(p));
  }

  /** Every path of a memory that names a file keeps its name and lands
      directly in its target directory; the photo order is kept. */
  lemma RemapKeepsNames(m: MemoryEvent, imagesDir: Path, audioDir: Path)
    requires forall p :: p in m.photoPaths ==> BaseName(p) != ""
    requires m.audioPath.Some? ==> BaseName(m.audioPath.value) != ""
    ensures var r := Remapped(m, imagesDir, audioDir);
      && (forall i :: 0 <= i < |m.photoPaths| ==>
            BaseName(r.photoPaths[i]) == BaseName(m.photoPaths[i]) && Parent(r.photoPaths[i]) == Some(imagesDir))
      && (m.audioPath.Some? ==>
            BaseName(r.audioPath.value) == BaseName(m.audioPath.value) && Parent(r.audioPath.value) == Some(audioDir))
  {
    var r := Remapped(m, imagesDir, audioDir);
    forall i | 0 <= i < |m.photoPaths|
      ensures BaseName(r.photoPaths[i]) == BaseName(m.photoPaths[i]) && Parent(r.photoPaths[i]) == Some(imagesDir)
    {
      var p := m.photoPaths[i];
      assert p in m.photoPaths;
      assert r.photoPaths[i] == RemapPath(p, imagesDir);
      RemapPathKeepsName(p, imagesDir);
    }
    if m.audioPath.Some? {
      assert r.audioPath.value == RemapPath(m.audioPath.value, audioDir);
      RemapPathKeepsName(m.audioPath.value, audioDir);
    }
  }

  /** Rewriting an already rewritten memory changes nothing. */
  lemma RemapIdempotent(m: MemoryEvent, imagesDir: Path, audioDir: Path)
    requires forall p :: p in m.photoPaths ==> BaseName(p) != ""
    requires m.audioPath.Some? ==> BaseName(m.audioPath.value) != ""
    ensures Remapped(Remapped(m, imagesDir, audioDir), imagesDir, audioDir) == Remapped(m, imagesDir, audioDir)
  {
    var r := Remapped(m, imagesDir, audioDir);
    RemapKeepsNames(m, imagesDir, audioDir);
    var rr := Remapped(r, imagesDir, audioDir);
    assert rr.photoPaths == r.photoPaths;
  }

  /** The rewritten paths are the files the import writes the exported
      media to: the photo at position `i` of a memory was archived as
      `photos/<name>`, which the import writes to `imagesDir/<name>`, the
      path the rewrite gives; likewise for the recording. */
  lemma RemapMatchesImport(filesDir: Path, m: MemoryEvent)
    ensures var r := Remapped(m, ImagesDir(filesDir), AudioDir(filesDir));
      && (forall i :: 0 <= i < |m.photoPaths| ==>
            MediaTarget(filesDir, EntryName(Media(PHOTOS_FOLDER, m.photoPaths[i])))
              == Some(Target(ImagesDir(filesDir), r.photoPaths[i])))
      && (m.audioPath.Some? ==>
            MediaTarget(filesDir, EntryName(Media(AUDIOS_FOLDER, m.audioPath.value)))
              == Some(Target(AudioDir(filesDir), r.audioPath.value)))
  {
    forall i | 0 <= i < |m.photoPaths|
      ensures MediaTarget(filesDir, EntryName(Media(PHOTOS_FOLDER, m.photoPaths[i])))
              == Some(Target(ImagesDir(filesDir), Remapped(m, ImagesDir(filesDir), AudioDir(filesDir)).photoPaths[i]))
    {
      FolderTarget(filesDir, PHOTOS_FOLDER, BaseName(m.photoPaths[i]));
    }
    if m.audioPath.Some? {
      FolderTarget(filesDir, AUDIOS_FOLDER, BaseName(m.audioPath.value));
    }
  }

  // ---------------------------------------------------------------------
  // The inserts

  /** The memory table's rows and `sqlite_sequence`, and the exception that
      ended the app's process, if one did. */
  datatype Table = Table(rows: map<int, MemoryEvent>, sequence: int, uncaught: Option<Room.SqlError>)

  /** One `insertEvent` per memory, in order. Each insert runs in its own
      `viewModelScope` coroutine, outside the callback's `try`: the first
      insert that throws ends the process, with the table as it left it, and
      nothing after it runs. */
  function InsertedAll(rows: map<int, MemoryEvent>, sequence: int, ms: seq<MemoryEvent>): (t: Table)
    requires MemoryEventDao.Consistent(rows, sequence)
    ensures MemoryEventDao.Consistent(t.rows, t.sequence)
    decreases |ms|
  {
    if ms == [] then Table(rows, sequence, None)
    else
      var t := InsertedAll(rows, sequence, ms[..|ms| - 1]);
      if t.uncaught.Some? then t
      else
        MemoryEventDao.InsertSpec(t.rows, t.sequence, ms[|ms| - 1]);
        var i := MemoryEventDao.Insert(t.rows, t.sequence, ms[|ms| - 1]);
        Table(i.rows, i.sequence, if i.result.Thrown? then Some(i.result.error) else None)
  }

  /** Memories archived without an id (id 0) are all added, under the next
      keys in archive order, and no existing row changes. */
  lemma {:induction false} FreshMemoriesAllAdded(rows: map<int, MemoryEvent>, sequence: int, ms: seq<MemoryEvent>)
    requires MemoryEventDao.Consistent(rows, sequence)
    requires forall i :: 0 <= i < |ms| ==> ms[i].id == UNSET_ID
    requires sequence + |ms| <= Room.ROWID_MAX
    ensures var t := InsertedAll(rows, sequence, ms);
      && t.uncaught.None?
      && t.sequence == sequence + |ms|
      && (forall k :: k in t.rows <==> k in rows || sequence < k <= sequence + |ms|)
      && (forall k :: k in rows ==> t.rows[k] == rows[k])
      && (forall i :: 0 <= i < |ms| ==>
            t.rows[sequence + i + 1] == ms[i].(id := Room.ReadBackId(sequence + i + 1)))
    decreases |ms|
  {
    if ms != [] {
      var n := |ms| - 1;
      var init := ms[..n];
      FreshMemoriesAllAdded(rows, sequence, init);
      var t := InsertedAll(rows, sequence, init);
      MemoryEventDao.InsertSpec(t.rows, t.sequence, ms[n]);
      forall i | 0 <= i < |ms|
        ensures InsertedAll(rows, sequence, ms).rows[sequence + i + 1] == ms[i].(id := Room.ReadBackId(sequence + i + 1))
      {
        if i < n {
          assert init[i] == ms[i];
        }
      }
    }
  }

  /** Once an insert has thrown, later memories change nothing. */
  lemma {:induction false} DiedStaysDead(rows: map<int, MemoryEvent>, sequence: int, ms: seq<MemoryEvent>, n: nat)
    requires MemoryEventDao.Consistent(rows, sequence)
    requires n <= |ms| && InsertedAll(rows, sequence, ms[..n]).uncaught.Some?
    ensures InsertedAll(rows, sequence, ms) == InsertedAll(rows, sequence, ms[..n])
    decreases |ms| - n
  {
    if n < |ms| {
      assert ms[..n + 1][..n] == ms[..n];
      DiedStaysDead(rows, sequence, ms, n + 1);
    } else {
      assert ms[..n] == ms;
    }
  }

  /** Importing a backup back into the phone it came from, where the first
      archived id is already in the table, ends the app's process on the
      first insert, with `SQLiteConstraintException` and the table
      unchanged. */
  lemma KnownIdsAllConflict(rows: map<int, MemoryEvent>, sequence: int, ms: seq<MemoryEvent>)
    requires MemoryEventDao.Consistent(rows, sequence)
    requires |ms| > 0 && ms[0].id != UNSET_ID && ms[0].id in rows
    ensures InsertedAll(rows, sequence, ms) == Table(rows, sequence, Some(Room.ConstraintFailed))
  {
    assert ms[..1][..0] == [];
    DiedStaysDead(rows, sequence, ms, 1);
  }

  // ---------------------------------------------------------------------
  // The menu

  /** Which backup actions the menu enables. */
  datatype Menu = Menu(exportEnabled: bool, shareEnabled: bool, importEnabled: bool, textEnabled: bool)

  /** Export and share need a non-empty list and no export running; import
      needs neither an export nor an import running; the text export only
      needs a non-empty list. */
  function MenuFor(isExporting: bool, isImporting: bool, events: seq<MemoryEvent>): (m: Menu)
    ensures m.importEnabled ==> !isImporting
    ensures m.exportEnabled == m.shareEnabled
    ensures !m.exportEnabled || m.textEnabled
  {
    Menu(!isExporting && events != [], !isExporting && events != [], !isExporting && !isImporting, events != [])
  }

  /** Each item's enablement in full: export and share are off while an
      export runs or when there is no memory; import is off while either
      an export or an import runs; the text export is off only when there
      is no memory. */
  lemma MenuEnablement(isExporting: bool, isImporting: bool, events: seq<MemoryEvent>)
    ensures var m := MenuFor(isExporting, isImporting, events);
      && (m.exportEnabled <==> !isExporting && events != [])
      && (m.shareEnabled <==> !isExporting && events != [])
      && (m.importEnabled <==> !isExporting && !isImporting)
      && (m.textEnabled <==> events != [])
  {
  }

  /** An export can be started while an import runs: the export items do
      not look at the import flag. */
  lemma ExportDuringImport(events: seq<MemoryEvent>)
    requires events != []
    ensures MenuFor(false, true, events).exportEnabled && !MenuFor(false, true, events).importEnabled
  {
  }

  /** The archives the app writes carry no anniversaries: the screen passes
      an empty list, and a completed export's `data.json` decodes to it. */
  lemma AppArchivesHaveNoAnniversaries(nodes: map<Path, Node>, codec: TextCodec, events: seq<MemoryEvent>, today: CalendarDate)
    requires Faithful(codec)
    requires !ExportRun(nodes, codec, events, [], today).failed
    ensures var d := LastSnapshot(codec, ExportRun(nodes, codec, events, [], today).entries);
      d.Some? && d.value.anniversaries == Some([]) && d.value.memories == Some(events)
  {
    ExportedSnapshot(nodes, codec, events, [], today);
  }

  /** The text export of the screen has no anniversary section. */
  lemma TextReportHasNoAnniversaries(today: CalendarDate, events: seq<MemoryEvent>)
    ensures TextExport.Report(today, events, []) == TextExport.Header(today) + TextExport.MemorySection(events)
  {
  }

  // ---------------------------------------------------------------------
  // The screen

  /** What the import callback's toast reports: success, a `null` result,
      or an exception its `try` caught. */
  datatype Toast = ImportSucceeded | ImportFailed | ImportThrew

  /** What the callback does with the result of `importMemories`: `null` is
      a failure; an `ExportData` whose `memories` Gson left `null` throws on
      `forEach`, before any insert; otherwise every memory is inserted. */
  function ImportToast(r: Option<ExportData>): Toast {
    if r.None? then ImportFailed else if r.value.memories.None? then ImportThrew else ImportSucceeded
  }

  class HomeScreen {
    const vm: MemoryViewModel.MemoryViewModel
    var isExporting: bool
    var isImporting: bool

    predicate Valid()
      reads this, vm, vm.table
    {
      vm.Valid()
    }

    constructor(vm: MemoryViewModel.MemoryViewModel)
      requires vm.Valid()
      ensures this.vm == vm && Valid()
      ensures !isExporting && !isImporting
    {
      this.vm := vm;
      isExporting := false;
      isImporting := false;
    }

    /** The `forEach` of the callback: rewrite, then `insertEvent`, until
        an insert's exception ends the process. */
    method InsertRemapped(memories: seq<MemoryEvent>, imagesDir: Path, audioDir: Path)
      returns (uncaught: Option<Room.SqlError>)
      requires Valid()
      modifies vm.table
      ensures Valid()
      ensures Table(vm.table.rows, vm.table.sequence, uncaught)
              == InsertedAll(old(vm.table.rows), old(vm.table.sequence), RemappedAll(memories, imagesDir, audioDir))
    {
      var rs := RemappedAll(memories, imagesDir, audioDir);
      uncaught := None;
      var i := 0;
      while i < |memories|
        invariant 0 <= i <= |memories|
        invariant vm.Valid()
        invariant Table(vm.table.rows, vm.table.sequence, uncaught) == InsertedAll(old(vm.table.rows), old(vm.table.sequence), rs[..i])
      {
        if uncaught.Some? {
          DiedStaysDead(old(vm.table.rows), old(vm.table.sequence), rs, i);
          assert rs[..|rs|] == rs;
          return;
        }
        var updated := Remapped(memories[i], imagesDir, audioDir);
        uncaught := vm.InsertEvent(updated);
        assert rs[..i + 1][..i] == rs[..i];
        i := i + 1;
      }
      assert rs[..i] == rs;
    }

    /** `importLauncher`'s callback. `picked` is false when the picker
        returned no uri; `source` is the stream the content resolver opened,
        if any. The inserts run in coroutines of their own, so the success
        toast is shown even when one of them throws; `uncaught` is that
        insert's exception, which ends the app's process. */
    method OnImportPicked(picked: bool, source: Option<ZipStream>, filesDir: Path, codec: TextCodec)
      returns (toast: Option<Toast>, uncaught: Option<Room.SqlError>)
      requires Valid()
      modifies this, vm.fs, vm.table
      ensures Valid()
      ensures isExporting == old(isExporting) && (picked ==> !isImporting)
      ensures !picked ==> toast.None? && uncaught.None? && vm.fs.nodes == old(vm.fs.nodes)
                          && vm.table.rows == old(vm.table.rows) && vm.table.sequence == old(vm.table.sequence)
                          && isImporting == old(isImporting)
      ensures picked ==>
        var r := if source.None? then None else Imported(ImportRun(filesDir, codec, old(vm.fs.nodes), source.value));
        && toast == Some(ImportToast(r))
        && vm.fs.nodes == (if source.None? then old(vm.fs.nodes) else ImportRun(filesDir, codec, old(vm.fs.nodes), source.value).nodes)
        && Table(vm.table.rows, vm.table.sequence, uncaught)
           == (if ImportToast(r) == ImportSucceeded
               then InsertedAll(old(vm.table.rows), old(vm.table.sequence),
                                RemappedAll(r.value.memories.value, ImagesDir(filesDir), AudioDir(filesDir)))
               else Table(old(vm.table.rows), old(vm.table.sequence), None))
    {
      uncaught := None;
      if !picked {
        return None, None;
      }
      isImporting := true;
      var importedData := ImportMemoriesFromUri(vm.fs, filesDir, codec, source);
      if importedData.None? {
        toast := Some(ImportFailed);
      } else if importedData.value.memories.None? {
        toast := Some(ImportThrew);
      } else {
        uncaught := InsertRemapped(importedData.value.memories.value, ImagesDir(filesDir), AudioDir(filesDir));
        toast := Some(ImportSucceeded);
      }
      isImporting := false;
    }

    /** The "export backup" item (and the export half of "share backup"):
        the listed memories and no anniversaries. */
    method OnExportBackup(externalDir: Path, codec: TextCodec, events: seq<MemoryEvent>, today: CalendarDate, now: nat)
      returns (r: Option<Path>)
      requires Valid()
      modifies this, vm.fs
      ensures Valid()
      ensures !isExporting && isImporting == old(isImporting)
      ensures var dirs := MakeDirs(old(vm.fs.nodes), ExportDir(externalDir));
              var file := BackupPath(externalDir, now);
              if !CanCreate(dirs, file) then r == None && vm.fs.nodes == dirs
              else
                var run := ExportRun(dirs[file := Blob([])], codec, events, [], today);
                && r == (if run.failed then None else Some(file))
                && vm.fs.nodes == dirs[file := ZipFile(run.entries)]
    {
      isExporting := true;
      r := ExportMemories(vm.fs, externalDir, codec, events, [], today, now);
      isExporting := false;
    }

    /** The "export text" item: the flags are not touched. */
    method OnExportText(externalDir: Path, events: seq<MemoryEvent>, today: CalendarDate, now: nat)
      returns (r: Option<Path>)
      requires Valid()
      modifies vm.fs
      ensures Valid()
      ensures var dirs := MakeDirs(old(vm.fs.nodes), ExportDir(externalDir));
              var file := TextExport.TextPath(externalDir, now);
              if CanCreate(dirs, file) then
                r == Some(file) && vm.fs.nodes == dirs[file := TextFile(TextExport.Report(today, events, []))]
              else r == None && vm.fs.nodes == dirs
    {
      r := TextExport.ExportToText(vm.fs, externalDir, events, [], today, now);
    }
  }
}
