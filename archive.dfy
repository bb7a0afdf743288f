/** `ExportImportUtils`: writing a backup archive (`data.json`, then the
    photos, then the recordings), reading one back into the media
    directories, and the plain-text export. The external and private files
    directories, the clock and today's date are parameters; the printer and
    reader of `data.json` are a `TextCodec`. */
module ExportImportUtils {
  import opened Wrappers
  import opened Text
  import opened Dates
  import opened Paths
  import opened Records
  import opened Zip
  import opened Files
  import opened FileUtils
  import opened Snapshot

  const DATA_ENTRY := "data.json"
  const PHOTOS_FOLDER := "photos/"
  const AUDIOS_FOLDER := "audios/"

  /** `File(getExternalFilesDir(null), "exports")`. */
  function ExportDir(externalDir: Path): Path {
    Join(externalDir, "exports")
  }

  /** `memories_backup_<millis>.zip` in the exports directory. */
  function BackupPath(externalDir: Path, now: nat): Path {
    Join(ExportDir(externalDir), "memories_backup_" + Decimal(now) + ".zip")
  }

  // ---------------------------------------------------------------------
  // Export: the media the archive tries to include, in order

  /** A media file a memory records: the archive folder its entry goes in
      and the recorded path. */
  datatype Media = Media(folder: string, path: Path)

  /** `"<folder><File(path).name>"`. */
  function EntryName(m: Media): string {
    m.folder + BaseName(m.path)
  }

  function Tagged(folder: string, paths: seq<Path>): seq<Media> {
    seq(|paths|, i requires 0 <= i < |paths| => Media(folder, paths[i]))
  }

  /** Every photo of every memory: memory order, then path order. */
  function PhotoPlan(ms: seq<MemoryEvent>): seq<Media> {
    if ms == [] then [] else PhotoPlan(ms[..|ms| - 1]) + Tagged(PHOTOS_FOLDER, ms[|ms| - 1].photoPaths)
  }

  function AudioOf(m: MemoryEvent): seq<Media> {
    match m.audioPath
    case None => []
    case Some(p) => [Media(AUDIOS_FOLDER, p)]
  }

  /** The recording of every memory that has one, in memory order. */
  function AudioPlan(ms: seq<MemoryEvent>): seq<Media> {
    if ms == [] then [] else AudioPlan(ms[..|ms| - 1]) + AudioOf(ms[|ms| - 1])
  }

  /** All photos before all recordings. */
  function MediaPlan(ms: seq<MemoryEvent>): seq<Media> {
    PhotoPlan(ms) + AudioPlan(ms)
  }

  // ---------------------------------------------------------------------
  // Export: what writing the entries does

  /** The entries written so far, and whether the writer has thrown. */
  datatype Packing = Packing(entries: seq<Entry>, failed: bool)

  /** One media file: a missing file is skipped; a name already written makes
      `putNextEntry` throw; a path that cannot be read (a directory, say)
      throws after its entry was opened, and closing the archive finishes
      that entry empty. */
  function Pack(nodes: map<Path, Node>, s: Packing, m: Media): Packing {
    if s.failed || m.path !in nodes then s
    else if HasName(s.entries, EntryName(m)) then s.(failed := true)
    else match nodes[m.path]
      case Blob(data) => Packing(s.entries + [Entry(EntryName(m), data)], false)
      case _ => Packing(s.entries + [Entry(EntryName(m), [])], true)
  }

  function PackAll(nodes: map<Path, Node>, s: Packing, plan: seq<Media>): Packing {
    if plan == [] then s else Pack(nodes, PackAll(nodes, s, plan[..|plan| - 1]), plan[|plan| - 1])
  }

  /** The archive as it stands after the `data.json` entry. */
  function DataEntry(codec: TextCodec, memories: seq<MemoryEvent>, anniversaries: seq<Anniversary>, today: CalendarDate): Entry {
    Entry(DATA_ENTRY, EncodeSnapshot(codec, NewExportData(memories, anniversaries, today)))
  }

  /** The whole run of the writer over the file system `nodes`. */
  function ExportRun(nodes: map<Path, Node>, codec: TextCodec, memories: seq<MemoryEvent>,
                     anniversaries: seq<Anniversary>, today: CalendarDate): Packing
  {
    PackAll(nodes, Packing([DataEntry(codec, memories, anniversaries, today)], false), MediaPlan(memories))
  }

  /** Writing one media file. */
  method AddMedia(fs: FileSystem, s: Packing, m: Media) returns (t: Packing)
    requires !s.failed
    ensures t == Pack(fs.nodes, s, m)
    ensures t.failed <==> m.path in fs.nodes && (HasName(s.entries, EntryName(m)) || !fs.nodes[m.path].Blob?)
  {
    if !fs.Exists(m.path) {
      return s;
    }
    var name := m.folder + BaseName(m.path);
    if exists i :: 0 <= i < |s.entries| && s.entries[i].name == name {
      return s.(failed := true);
    }
    var data := fs.Read(m.path);
    match data
    case Some(bytes) =>
      t := Packing(s.entries + [Entry(name, bytes)], false);
    case None =>
      t := Packing(s.entries + [Entry(name, [])], true);
  }

  /** `exportMemories`: the path of the new archive, or `null` when creating
      it or writing any entry threw; the partly written archive stays. */
  method ExportMemories(fs: FileSystem, externalDir: Path, codec: TextCodec, memories: seq<MemoryEvent>,
                        anniversaries: seq<Anniversary>, today: CalendarDate, now: nat)
    returns (r: Option<Path>)
    modifies fs
    ensures var dirs := MakeDirs(old(fs.nodes), ExportDir(externalDir));
            var file := BackupPath(externalDir, now);
            if !CanCreate(dirs, file) then r == None && fs.nodes == dirs
            else
              var run := ExportRun(dirs[file := Blob([])], codec, memories, anniversaries, today);
              && r == (if run.failed then None else Some(file))
              && fs.nodes == dirs[file := ZipFile(run.entries)]
  {
    var zipFile, ok := CreateBackupFile(fs, externalDir, now);
    if !ok {
      return None;
    }
    ghost var created := fs.nodes;
    r := WriteArchive(fs, zipFile, codec, memories, anniversaries, today);
    ghost var run := ExportRun(created, codec, memories, anniversaries, today);
    UpdateTwice(MakeDirs(old(fs.nodes), ExportDir(externalDir)), zipFile, Blob([]), ZipFile(run.entries));
  }

  /** The exports directory, created when missing, and a new empty
      `memories_backup_<millis>.zip` in it; `ok` is false where
      `FileOutputStream` throws. */
  method CreateBackupFile(fs: FileSystem, externalDir: Path, now: nat) returns (zipFile: Path, ok: bool)
    modifies fs
    ensures zipFile == BackupPath(externalDir, now)
    ensures var dirs := MakeDirs(old(fs.nodes), ExportDir(externalDir));
            && ok == CanCreate(dirs, zipFile)
            && fs.nodes == if ok then dirs[zipFile := Blob([])] else dirs
  {
    var exportDir := Join(externalDir, "exports");
    if !fs.Exists(exportDir) {
      var _ := fs.Mkdirs(exportDir);
    }
    zipFile := Join(exportDir, "memories_backup_" + Decimal(now) + ".zip");
    ok := fs.Create(zipFile);
  }

  /** The `ZipOutputStream` block: `data.json`, the photos, the recordings;
      closing the stream keeps whatever was written before an exception. */
  method WriteArchive(fs: FileSystem, zipFile: Path, codec: TextCodec, memories: seq<MemoryEvent>,
                      anniversaries: seq<Anniversary>, today: CalendarDate)
    returns (r: Option<Path>)
    requires zipFile in fs.nodes && fs.nodes[zipFile] == Blob([])
    modifies fs
    ensures var run := ExportRun(old(fs.nodes), codec, memories, anniversaries, today);
            && r == (if run.failed then None else Some(zipFile))
            && fs.nodes == old(fs.nodes)[zipFile := ZipFile(run.entries)]
  {
    ghost var nodes := fs.nodes;
    var jsonData := EncodeSnapshot(codec, NewExportData(memories, anniversaries, today));
    var s := Packing([Entry("data.json", jsonData)], false);
    ghost var init := s;
    assert init == Packing([DataEntry(codec, memories, anniversaries, today)], false);
    s := PackPhotos(fs, s, memories);
    if !s.failed {
      s := PackAudios(fs, init, s, memories);
    }
    assert s == ExportRun(nodes, codec, memories, anniversaries, today);
    fs.Store(zipFile, ZipFile(s.entries));
    r := if s.failed then None else Some(zipFile);
  }

  /** The photo loops: every photo of every memory, until one throws. */
  method PackPhotos(fs: FileSystem, init: Packing, memories: seq<MemoryEvent>) returns (s: Packing)
    requires !init.failed
    ensures s.failed ==> s == PackAll(fs.nodes, init, MediaPlan(memories))
    ensures !s.failed ==> s == PackAll(fs.nodes, init, PhotoPlan(memories))
  {
    ghost var plan := MediaPlan(memories);
    ghost var done: seq<Media> := [];
    s := init;
    var i := 0;
    while i < |memories| && !s.failed
      invariant 0 <= i <= |memories|
      invariant done <= plan && s == PackAll(fs.nodes, init, done)
      invariant !s.failed ==> done == PhotoPlan(memories[..i])
    {
      var paths := memories[i].photoPaths;
      var j := 0;
      while j < |paths| && !s.failed
        invariant 0 <= j <= |paths|
        invariant done == PhotoPlan(memories[..i]) + Tagged(PHOTOS_FOLDER, paths[..j])
        invariant s == PackAll(fs.nodes, init, done)
      {
        ghost var m := Media(PHOTOS_FOLDER, paths[j]);
        s := AddMedia(fs, s, Media("photos/", paths[j]));
        PackAllSnoc(fs.nodes, init, done, m);
        PhotoStep(memories, i, j, done);
        done := done + [m];
        j := j + 1;
      }
      PhotoStepPrefix(memories, i, j);
      if !s.failed {
        PhotoRowDone(memories, i);
      }
      i := i + 1;
    }
    if !s.failed {
      assert memories[..i] == memories;
    } else {
      PackAllFailedPrefix(fs.nodes, init, done, plan);
    }
  }

  /** The audio loop: the recording of every memory that has one, until one
      throws. */
  method PackAudios(fs: FileSystem, ghost init: Packing, start: Packing, memories: seq<MemoryEvent>) returns (s: Packing)
    requires !start.failed && start == PackAll(fs.nodes, init, PhotoPlan(memories))
    ensures s == PackAll(fs.nodes, init, MediaPlan(memories))
  {
    ghost var plan := MediaPlan(memories);
    ghost var done: seq<Media> := PhotoPlan(memories);
    assert done == AudioDone(memories, 0);
    s := start;
    var i := 0;
    while i < |memories| && !s.failed
      invariant 0 <= i <= |memories|
      invariant done <= plan && s == PackAll(fs.nodes, init, done)
      invariant !s.failed ==> done == AudioDone(memories, i)
    {
      ghost var before := done;
      if memories[i].audioPath.Some? {
        var audioPath := memories[i].audioPath.value;
        s := AddMedia(fs, s, Media("audios/", audioPath));
        PackAllSnoc(fs.nodes, init, done, Media(AUDIOS_FOLDER, audioPath));
        done := done + [Media(AUDIOS_FOLDER, audioPath)];
      }
      AudioStep(memories, i, before, done);
      i := i + 1;
    }
    if !s.failed {
      assert memories[..i] == memories;
      assert done == plan;
    } else {
      PackAllFailedPrefix(fs.nodes, init, done, plan);
    }
  }

  // ---------------------------------------------------------------------
  // Export: lemmas about the plan and the writer

  lemma PhotoStep(ms: seq<MemoryEvent>, i: nat, j: nat, before: seq<Media>)
    requires i < |ms| && j < |ms[i].photoPaths|
    requires before == PhotoPlan(ms[..i]) + Tagged(PHOTOS_FOLDER, ms[i].photoPaths[..j])
    ensures before + [Media(PHOTOS_FOLDER, ms[i].photoPaths[j])] ==
      PhotoPlan(ms[..i]) + Tagged(PHOTOS_FOLDER, ms[i].photoPaths[..j + 1])
  {
    var paths := ms[i].photoPaths;
    assert Tagged(PHOTOS_FOLDER, paths[..j + 1]) == Tagged(PHOTOS_FOLDER, paths[..j]) + [Media(PHOTOS_FOLDER, paths[j])];
  }

  lemma PhotoRowDone(ms: seq<MemoryEvent>, i: nat)
    requires i < |ms|
    ensures PhotoPlan(ms[..i]) + Tagged(PHOTOS_FOLDER, ms[i].photoPaths[..|ms[i].photoPaths|]) == PhotoPlan(ms[..i + 1])
  {
    var t := ms[..i + 1];
    assert t != [] && t[..|t| - 1] == ms[..i] && t[|t| - 1] == ms[i];
    assert ms[i].photoPaths[..|ms[i].photoPaths|] == ms[i].photoPaths;
  }

  lemma PackAllSnoc(nodes: map<Path, Node>, s: Packing, done: seq<Media>, m: Media)
    ensures PackAll(nodes, s, done + [m]) == Pack(nodes, PackAll(nodes, s, done), m)
  {
    assert (done + [m])[..|done|] == done;
  }

  /** Once the writer has thrown, the rest of the plan changes nothing. */
  lemma {:induction false} PackAllFailedPrefix(nodes: map<Path, Node>, s: Packing, done: seq<Media>, plan: seq<Media>)
    requires done <= plan
    requires PackAll(nodes, s, done).failed
    ensures PackAll(nodes, s, plan) == PackAll(nodes, s, done)
    decreases |plan|
  {
    if |plan| > |done| {
      assert done <= plan[..|plan| - 1];
      PackAllFailedPrefix(nodes, s, done, plan[..|plan| - 1]);
    } else {
      assert done == plan;
    }
  }

  lemma {:induction false} PhotoPlanPrefix(ms: seq<MemoryEvent>, i: nat)
    requires i <= |ms|
    ensures PhotoPlan(ms[..i]) <= PhotoPlan(ms)
    decreases |ms|
  {
    if i < |ms| {
      PhotoPlanPrefix(ms[..|ms| - 1], i);
      assert ms[..|ms| - 1][..i] == ms[..i];
    } else {
      assert ms[..i] == ms;
    }
  }

  lemma {:induction false} AudioPlanPrefix(ms: seq<MemoryEvent>, i: nat)
    requires i <= |ms|
    ensures AudioPlan(ms[..i]) <= AudioPlan(ms)
    decreases |ms|
  {
    if i < |ms| {
      AudioPlanPrefix(ms[..|ms| - 1], i);
      assert ms[..|ms| - 1][..i] == ms[..i];
    } else {
      assert ms[..i] == ms;
    }
  }

  /** Where the photo loops stand after `j` photos of memory `i` is a prefix
      of the whole plan. */
  lemma PhotoStepPrefix(ms: seq<MemoryEvent>, i: nat, j: nat)
    requires i < |ms| && j <= |ms[i].photoPaths|
    ensures PhotoPlan(ms[..i]) + Tagged(PHOTOS_FOLDER, ms[i].photoPaths[..j]) <= MediaPlan(ms)
  {
    var paths := ms[i].photoPaths;
    assert ms[..i + 1][..i] == ms[..i];
    assert PhotoPlan(ms[..i + 1]) == PhotoPlan(ms[..i]) + Tagged(PHOTOS_FOLDER, paths);
    assert Tagged(PHOTOS_FOLDER, paths[..j]) <= Tagged(PHOTOS_FOLDER, paths);
    PhotoPlanPrefix(ms, i + 1);
  }

  lemma AudioPlanSnoc(ms: seq<MemoryEvent>, i: nat)
    requires i < |ms|
    ensures AudioPlan(ms[..i + 1]) == AudioPlan(ms[..i]) + AudioOf(ms[i])
  {
    var t := ms[..i + 1];
    assert t != [] && t[..|t| - 1] == ms[..i] && t[|t| - 1] == ms[i];
  }

  /** The plan up to the audio of memory `i`. */
  function AudioDone(ms: seq<MemoryEvent>, i: nat): seq<Media>
    requires i <= |ms|
  {
    PhotoPlan(ms) + AudioPlan(ms[..i])
  }

  /** One turn of the audio loop keeps its place in the whole plan. */
  lemma AudioStep(ms: seq<MemoryEvent>, i: nat, before: seq<Media>, done: seq<Media>)
    requires i < |ms| && before == AudioDone(ms, i)
    requires done == before + AudioOf(ms[i])
    ensures done == AudioDone(ms, i + 1) && done <= MediaPlan(ms)
  {
    AudioPlanSnoc(ms, i);
    ConcatAssoc(PhotoPlan(ms), AudioPlan(ms[..i]), AudioOf(ms[i]));
    AudioPlanPrefix(ms, i + 1);
    assert |AudioOf(ms[i])| <= 1;
  }

  // ---------------------------------------------------------------------
  // Export: which archives come out

  /** The bytes a node yields when archived. */
  function Contents(n: Node): Bytes {
    if n.Blob? then n.data else []
  }

  /** The entries the plan contributes: one per media file that exists. */
  function Included(nodes: map<Path, Node>, plan: seq<Media>): seq<Entry> {
    if plan == [] then []
    else
      var m := plan[|plan| - 1];
      Included(nodes, plan[..|plan| - 1]) + (if m.path in nodes then [Entry(EntryName(m), Contents(nodes[m.path]))] else [])
  }

  /** Every existing media file of the plan can be read. */
  predicate Readable(nodes: map<Path, Node>, plan: seq<Media>) {
    forall i :: 0 <= i < |plan| && plan[i].path in nodes ==> nodes[plan[i].path].Blob?
  }

  /** No two existing media files of the plan give the same entry name. */
  predicate NamesApart(nodes: map<Path, Node>, plan: seq<Media>) {
    forall i, j :: 0 <= i < j < |plan| && plan[i].path in nodes && plan[j].path in nodes ==>
      EntryName(plan[i]) != EntryName(plan[j])
  }

  predicate Exportable(nodes: map<Path, Node>, plan: seq<Media>) {
    Readable(nodes, plan) && NamesApart(nodes, plan)
  }

  lemma HasNameAppend(xs: seq<Entry>, ys: seq<Entry>, name: string)
    ensures HasName(xs + ys, name) <==> HasName(xs, name) || HasName(ys, name)
  {
    if HasName(xs + ys, name) {
      var k :| 0 <= k < |xs + ys| && (xs + ys)[k].name == name;
      if k >= |xs| {
        assert ys[k - |xs|].name == name;
      } else {
        assert xs[k].name == name;
      }
    }
    if HasName(xs, name) {
      var k :| 0 <= k < |xs| && xs[k].name == name;
      assert (xs + ys)[k].name == name;
    }
    if HasName(ys, name) {
      var k :| 0 <= k < |ys| && ys[k].name == name;
      assert (xs + ys)[|xs| + k].name == name;
    }
  }

  /** Each existing file of the plan gives an entry of its name. */
  lemma {:induction false} IncludedHasName(nodes: map<Path, Node>, plan: seq<Media>, i: nat)
    requires i < |plan| && plan[i].path in nodes
    ensures HasName(Included(nodes, plan), EntryName(plan[i]))
    decreases |plan|
  {
    var front, m := plan[..|plan| - 1], plan[|plan| - 1];
    var last := if m.path in nodes then [Entry(EntryName(m), Contents(nodes[m.path]))] else [];
    HasNameAppend(Included(nodes, front), last, EntryName(plan[i]));
    if i < |front| {
      assert front[i] == plan[i];
      IncludedHasName(nodes, front, i);
    } else {
      assert last[0].name == EntryName(plan[i]);
    }
  }

  /** Each entry name the plan contributes comes from an existing file. */
  lemma {:induction false} IncludedNameSource(nodes: map<Path, Node>, plan: seq<Media>, name: string) returns (i: nat)
    requires HasName(Included(nodes, plan), name)
    ensures i < |plan| && plan[i].path in nodes && EntryName(plan[i]) == name
    decreases |plan|
  {
    var front, m := plan[..|plan| - 1], plan[|plan| - 1];
    var last := if m.path in nodes then [Entry(EntryName(m), Contents(nodes[m.path]))] else [];
    HasNameAppend(Included(nodes, front), last, name);
    if HasName(Included(nodes, front), name) {
      i := IncludedNameSource(nodes, front, name);
      assert front[i] == plan[i];
    } else {
      var k :| 0 <= k < |last| && last[k].name == name;
      i := |plan| - 1;
    }
  }

  lemma ReadableStep(nodes: map<Path, Node>, plan: seq<Media>)
    requires plan != []
    ensures var front, m := plan[..|plan| - 1], plan[|plan| - 1];
      Readable(nodes, plan) <==> Readable(nodes, front) && (m.path in nodes ==> nodes[m.path].Blob?)
  {
    var front := plan[..|plan| - 1];
    assert forall i :: 0 <= i < |front| ==> front[i] == plan[i];
  }

  lemma NamesApartFront(nodes: map<Path, Node>, plan: seq<Media>)
    requires plan != [] && NamesApart(nodes, plan)
    ensures var front, m := plan[..|plan| - 1], plan[|plan| - 1];
      NamesApart(nodes, front) && (m.path in nodes ==> !HasName(Included(nodes, front), EntryName(m)))
  {
    var front, m := plan[..|plan| - 1], plan[|plan| - 1];
    assert forall i :: 0 <= i < |front| ==> front[i] == plan[i];
    if m.path in nodes && HasName(Included(nodes, front), EntryName(m)) {
      var i := IncludedNameSource(nodes, front, EntryName(m));
      assert false;
    }
  }

  lemma NamesApartBack(nodes: map<Path, Node>, plan: seq<Media>)
    requires plan != []
    requires var front, m := plan[..|plan| - 1], plan[|plan| - 1];
      NamesApart(nodes, front) && (m.path in nodes ==> !HasName(Included(nodes, front), EntryName(m)))
    ensures NamesApart(nodes, plan)
  {
    var front := plan[..|plan| - 1];
    forall i, j | 0 <= i < j < |plan| && plan[i].path in nodes && plan[j].path in nodes
      ensures EntryName(plan[i]) != EntryName(plan[j])
    {
      assert plan[i] == front[i];
      if j == |front| {
        IncludedHasName(nodes, front, i);
      } else {
        assert plan[j] == front[j];
      }
    }
  }

  /** Adding one media file to a completed run. */
  lemma PackOutcome(nodes: map<Path, Node>, s: Packing, m: Media)
    requires !s.failed
    ensures var t := Pack(nodes, s, m);
      && (!t.failed <==> (m.path in nodes ==> nodes[m.path].Blob? && !HasName(s.entries, EntryName(m))))
      && (!t.failed ==> t.entries == s.entries + (if m.path in nodes then [Entry(EntryName(m), Contents(nodes[m.path]))] else []))
  {
  }

  /** The writer completes exactly when the plan is exportable, and then the
      archive is the first entries followed by one entry per existing media
      file, in plan order. */
  lemma {:induction false} PackAllOutcome(nodes: map<Path, Node>, init: seq<Entry>, plan: seq<Media>)
    requires forall m, k :: m in plan && 0 <= k < |init| ==> init[k].name != EntryName(m)
    ensures var r := PackAll(nodes, Packing(init, false), plan);
      && (!r.failed <==> Exportable(nodes, plan))
      && (!r.failed ==> r.entries == init + Included(nodes, plan))
    decreases |plan|
  {
    if plan != [] {
      var front, m := plan[..|plan| - 1], plan[|plan| - 1];
      assert forall x :: x in front ==> x in plan;
      PackAllOutcome(nodes, init, front);
      ReadableStep(nodes, plan);
      if NamesApart(nodes, plan) {
        NamesApartFront(nodes, plan);
      }
      var before := PackAll(nodes, Packing(init, false), front);
      if !before.failed {
        PackOutcome(nodes, before, m);
        var last := if m.path in nodes then [Entry(EntryName(m), Contents(nodes[m.path]))] else [];
        assert Included(nodes, plan) == Included(nodes, front) + last;
        ConcatAssoc(init, Included(nodes, front), last);
        HasNameAppend(init, Included(nodes, front), EntryName(m));
        if m.path in nodes {
          assert !HasName(init, EntryName(m));
        }
        if Exportable(nodes, front) && (m.path in nodes ==> !HasName(Included(nodes, front), EntryName(m))) {
          NamesApartBack(nodes, plan);
        }
      }
    }
  }
  /** The writer only ever appends. */
  lemma {:induction false} PackAllExtends(nodes: map<Path, Node>, s: Packing, plan: seq<Media>)
    ensures s.entries <= PackAll(nodes, s, plan).entries
    decreases |plan|
  {
    if plan != [] {
      var before := PackAll(nodes, s, plan[..|plan| - 1]);
      PackAllExtends(nodes, s, plan[..|plan| - 1]);
      PackExtends(nodes, before, plan[|plan| - 1]);
    }
  }

  lemma PackExtends(nodes: map<Path, Node>, s: Packing, m: Media)
    ensures s.entries <= Pack(nodes, s, m).entries
  {
  }

  lemma {:induction false} IncludedAppend(nodes: map<Path, Node>, p: seq<Media>, q: seq<Media>)
    ensures Included(nodes, p + q) == Included(nodes, p) + Included(nodes, q)
    decreases |q|
  {
    if q == [] {
      assert p + q == p;
    } else {
      var front, m := q[..|q| - 1], q[|q| - 1];
      assert (p + q)[..|p + q| - 1] == p + front;
      assert (p + q)[|p + q| - 1] == m;
      IncludedAppend(nodes, p, front);
      var last := if m.path in nodes then [Entry(EntryName(m), Contents(nodes[m.path]))] else [];
      ConcatAssoc(Included(nodes, p), Included(nodes, front), last);
    }
  }

  /** An existing file of the plan, archived under `folder` followed by its
      base name. */
  predicate ArchivedUnder(e: Entry, folder: string, nodes: map<Path, Node>) {
    exists p :: p in nodes && e == Entry(folder + BaseName(p), Contents(nodes[p]))
  }

  /** Every entry of a plan whose files all go to one folder is that folder
      followed by a base name, and carries the bytes of an existing file. */
  lemma {:induction false} IncludedUnder(nodes: map<Path, Node>, plan: seq<Media>, folder: string)
    requires forall k :: 0 <= k < |plan| ==> plan[k].folder == folder
    ensures forall e :: e in Included(nodes, plan) ==> ArchivedUnder(e, folder, nodes)
    decreases |plan|
  {
    if plan != [] {
      var front, m := plan[..|plan| - 1], plan[|plan| - 1];
      IncludedUnder(nodes, front, folder);
      if m.path in nodes {
        assert m.folder == folder;
        assert ArchivedUnder(Entry(EntryName(m), Contents(nodes[m.path])), folder, nodes);
      }
    }
  }

  lemma {:induction false} PhotoPlanFolder(ms: seq<MemoryEvent>)
    ensures forall k :: 0 <= k < |PhotoPlan(ms)| ==> PhotoPlan(ms)[k].folder == PHOTOS_FOLDER
    decreases |ms|
  {
    if ms != [] {
      PhotoPlanFolder(ms[..|ms| - 1]);
    }
  }

  lemma {:induction false} AudioPlanFolder(ms: seq<MemoryEvent>)
    ensures forall k :: 0 <= k < |AudioPlan(ms)| ==> AudioPlan(ms)[k].folder == AUDIOS_FOLDER
    decreases |ms|
  {
    if ms != [] {
      AudioPlanFolder(ms[..|ms| - 1]);
    }
  }

  /** A name under a media folder is not `data.json`. */
  lemma MediaNameNotData(m: Media)
    requires m.folder == PHOTOS_FOLDER || m.folder == AUDIOS_FOLDER
    ensures EntryName(m) != DATA_ENTRY
  {
    assert EntryName(m)[0] == m.folder[0];
  }

  lemma MediaNamesApart(ms: seq<MemoryEvent>)
    ensures forall m :: m in MediaPlan(ms) ==> EntryName(m) != DATA_ENTRY
  {
    var photos, audios := PhotoPlan(ms), AudioPlan(ms);
    PhotoPlanFolder(ms);
    AudioPlanFolder(ms);
    forall m | m in photos + audios
      ensures EntryName(m) != DATA_ENTRY
    {
      if m in photos {
        var i :| 0 <= i < |photos| && photos[i] == m;
      } else {
        assert m in audios;
        var i :| 0 <= i < |audios| && audios[i] == m;
      }
      MediaNameNotData(m);
    }
  }

  /** `data.json` always comes first, and reads back as the snapshot of the
      memories and anniversaries passed in, paths to missing files
      included. */
  lemma ExportDataFirst(nodes: map<Path, Node>, codec: TextCodec, ms: seq<MemoryEvent>,
                        anniversaries: seq<Anniversary>, today: CalendarDate)
    requires Faithful(codec)
    ensures var run := ExportRun(nodes, codec, ms, anniversaries, today);
      && run.entries != [] && run.entries[0].name == DATA_ENTRY
      && DecodeSnapshot(codec, run.entries[0].data) == Outcome.Decoded(NewExportData(ms, anniversaries, today))
  {
    var init := [DataEntry(codec, ms, anniversaries, today)];
    PackAllExtends(nodes, Packing(init, false), MediaPlan(ms));
    SnapshotRoundTrip(codec, NewExportData(ms, anniversaries, today));
  }

  /** The export completes exactly when every existing media file is
      readable and no two share an entry name; a completed archive holds,
      after `data.json`, one `photos/<base name>` entry per existing photo in
      memory then path order, then one `audios/<base name>` entry per
      existing recording, each with the file's bytes. */
  lemma ExportArchive(nodes: map<Path, Node>, codec: TextCodec, ms: seq<MemoryEvent>,
                      anniversaries: seq<Anniversary>, today: CalendarDate)
    ensures var run := ExportRun(nodes, codec, ms, anniversaries, today);
      && (!run.failed <==> Exportable(nodes, MediaPlan(ms)))
      && (!run.failed ==>
            && run.entries == [DataEntry(codec, ms, anniversaries, today)] + Included(nodes, PhotoPlan(ms)) + Included(nodes, AudioPlan(ms))
            && (forall e :: e in Included(nodes, PhotoPlan(ms)) ==> ArchivedUnder(e, PHOTOS_FOLDER, nodes))
            && (forall e :: e in Included(nodes, AudioPlan(ms)) ==> ArchivedUnder(e, AUDIOS_FOLDER, nodes)))
  {
    var init := [DataEntry(codec, ms, anniversaries, today)];
    MediaNamesApart(ms);
    PackAllOutcome(nodes, init, MediaPlan(ms));
    IncludedAppend(nodes, PhotoPlan(ms), AudioPlan(ms));
    ConcatAssoc(init, Included(nodes, PhotoPlan(ms)), Included(nodes, AudioPlan(ms)));
    PhotoPlanFolder(ms);
    AudioPlanFolder(ms);
    IncludedUnder(nodes, PhotoPlan(ms), PHOTOS_FOLDER);
    IncludedUnder(nodes, AudioPlan(ms), AUDIOS_FOLDER);
  }

  // ---------------------------------------------------------------------
  // Import: what reading the entries does

  /** The snapshot read so far, the file system, and whether reading has
      thrown. */
  datatype Progress = Progress(snapshot: Option<ExportData>, nodes: map<Path, Node>, failed: bool)

  /** Where a media entry is written: the media directory its getter
      prepares, and the file inside it. */
  datatype Target = Target(dir: Path, file: Path)

  /** `photos/X` goes to `imagesDir/X` and `audios/X` to `audioDir/X`
      (`substringAfter` of a prefix the name starts with is the rest of the
      name); any other name is not a media entry. */
  function MediaTarget(filesDir: Path, name: string): Option<Target> {
    if StartsWith(name, PHOTOS_FOLDER) then
      Some(Target(ImagesDir(filesDir), Join(ImagesDir(filesDir), name[|PHOTOS_FOLDER|..])))
    else if StartsWith(name, AUDIOS_FOLDER) then
      Some(Target(AudioDir(filesDir), Join(AudioDir(filesDir), name[|AUDIOS_FOLDER|..])))
    else None
  }

  /** The directory getter, then `parentFile?.mkdirs()`. */
  function Prepared(nodes: map<Path, Node>, filesDir: Path, t: Target): map<Path, Node> {
    var withDir := AfterGetter(nodes, filesDir, t.dir);
    match Parent(t.file)
    case None => withDir
    case Some(q) => MakeDirs(withDir, q)
  }

  /** One entry: `data.json` replaces the snapshot (a null document clears
      it, a malformed one throws); a media entry is written to its target,
      and throws when the target cannot be opened; anything else is
      skipped. */
  function Unpack(filesDir: Path, codec: TextCodec, p: Progress, e: Entry): Progress {
    if p.failed then p
    else if e.name == DATA_ENTRY then
      match DecodeSnapshot(codec, e.data)
      case Decoded(d) => p.(snapshot := Some(d))
      case NullDocument => p.(snapshot := None)
      case Malformed => p.(failed := true)
    else match MediaTarget(filesDir, e.name)
      case None => p
      case Some(t) =>
        var dirs := Prepared(p.nodes, filesDir, t);
        if CanCreate(dirs, t.file) then p.(nodes := dirs[t.file := Blob(e.data)])
        else p.(nodes := dirs, failed := true)
  }

  function UnpackAll(filesDir: Path, codec: TextCodec, p: Progress, entries: seq<Entry>): Progress {
    if entries == [] then p
    else Unpack(filesDir, codec, UnpackAll(filesDir, codec, p, entries[..|entries| - 1]), entries[|entries| - 1])
  }

  /** The whole read of a stream, starting from the file system `nodes`; a
      damaged archive throws once its readable entries are processed. */
  function ImportRun(filesDir: Path, codec: TextCodec, nodes: map<Path, Node>, stream: ZipStream): Progress {
    var p := UnpackAll(filesDir, codec, Progress(None, nodes, false), stream.entries);
    if stream.damaged then p.(failed := true) else p
  }

  /** What `importMemories` returns for a run: `null` when it threw. */
  function Imported(p: Progress): Option<ExportData> {
    if p.failed then None else p.snapshot
  }

  // ---------------------------------------------------------------------
  // Import: the methods

  /** The `read(buffer)` / `write(buffer, 0, length)` loop: each read yields
      between 1 and 1024 bytes until the entry is exhausted. */
  method CopyEntry(fs: FileSystem, file: Path, data: Bytes)
    requires file in fs.nodes && fs.nodes[file] == Blob([])
    modifies fs
    ensures fs.nodes == old(fs.nodes)[file := Blob(data)]
  {
    var pos := 0;
    while pos < |data|
      invariant 0 <= pos <= |data|
      invariant fs.nodes == old(fs.nodes)[file := Blob(data[..pos])]
    {
      var length :| 0 < length <= 1024 && pos + length <= |data|;
      fs.Append(file, data[pos..pos + length]);
      assert data[..pos] + data[pos..pos + length] == data[..pos + length];
      pos := pos + length;
    }
    assert data[..pos] == data;
  }

  /** A `photos/` or `audios/` entry: the media directory, the parent of the
      target, then the target file with the entry's bytes. */
  method ExtractMedia(fs: FileSystem, filesDir: Path, name: string, data: Bytes) returns (ok: bool)
    requires MediaTarget(filesDir, name).Some?
    modifies fs
    ensures var t := MediaTarget(filesDir, name).value;
            var dirs := Prepared(old(fs.nodes), filesDir, t);
            && ok == CanCreate(dirs, t.file)
            && fs.nodes == if ok then dirs[t.file := Blob(data)] else dirs
  {
    var file := PrepareTarget(fs, filesDir, name);
    ghost var dirs := fs.nodes;
    ok := fs.Create(file);
    if ok {
      CopyEntry(fs, file, data);
      UpdateTwice(dirs, file, Blob([]), Blob(data));
    }
  }

  /** The directory getter and `parentFile?.mkdirs()` for a media entry. */
  method PrepareTarget(fs: FileSystem, filesDir: Path, name: string) returns (file: Path)
    requires MediaTarget(filesDir, name).Some?
    modifies fs
    ensures var t := MediaTarget(filesDir, name).value;
            file == t.file && fs.nodes == Prepared(old(fs.nodes), filesDir, t)
  {
    var dir;
    if StartsWith(name, "photos/") {
      dir := GetImagesDirectory(fs, filesDir);
    } else {
      dir := GetAudioDirectory(fs, filesDir);
    }
    file := Join(dir, name[7..]);
    var parent := Parent(file);
    if parent.Some? {
      var _ := fs.Mkdirs(parent.value);
    }
  }

  /** The `ZipInputStream` loop shared by both `importMemories` overloads. */
  method ReadArchive(fs: FileSystem, filesDir: Path, codec: TextCodec, stream: ZipStream) returns (r: Option<ExportData>)
    modifies fs
    ensures var p := ImportRun(filesDir, codec, old(fs.nodes), stream);
            fs.nodes == p.nodes && r == Imported(p)
  {
    ghost var start := Progress(None, fs.nodes, false);
    var entries := stream.entries;
    var exportData: Option<ExportData> := None;
    var failed := false;
    var i := 0;
    while i < |entries| && !failed
      invariant 0 <= i <= |entries|
      invariant Progress(exportData, fs.nodes, failed) == UnpackAll(filesDir, codec, start, entries[..i])
    {
      var entry := entries[i];
      ghost var before := Progress(exportData, fs.nodes, failed);
      if entry.name == "data.json" {
        match DecodeSnapshot(codec, entry.data) {
          case Decoded(d) => exportData := Some(d);
          case NullDocument => exportData := None;
          case Malformed => failed := true;
        }
      } else if StartsWith(entry.name, "photos/") || StartsWith(entry.name, "audios/") {
        var ok := ExtractMedia(fs, filesDir, entry.name, entry.data);
        failed := !ok;
      }
      UnpackAllSnoc(filesDir, codec, start, entries, i);
      assert Progress(exportData, fs.nodes, failed) == Unpack(filesDir, codec, before, entry);
      i := i + 1;
    }
    if failed {
      UnpackAllFailedPrefix(filesDir, codec, start, entries, i);
    } else {
      assert entries[..i] == entries;
    }
    if stream.damaged {
      failed := true;
    }
    r := if failed then None else exportData;
  }

  /** `importMemories(context, uri)`: `source` is what the content resolver
      opens, `None` when it yields no stream. */
  method ImportMemoriesFromUri(fs: FileSystem, filesDir: Path, codec: TextCodec, source: Option<ZipStream>)
    returns (r: Option<ExportData>)
    modifies fs
    ensures source.None? ==> r.None? && fs.nodes == old(fs.nodes)
    ensures source.Some? ==>
      var p := ImportRun(filesDir, codec, old(fs.nodes), source.value);
      fs.nodes == p.nodes && r == Imported(p)
  {
    if source.None? {
      return None;
    }
    r := ReadArchive(fs, filesDir, codec, source.value);
  }

  /** The stream `ZipInputStream(zipFile.inputStream())` reads: the entries of
      an archive; no entries for a file that is not one; nothing when the
      path is missing or a directory, where opening throws. */
  function ArchiveAt(nodes: map<Path, Node>, zipFile: Path): Option<ZipStream> {
    if zipFile !in nodes then None
    else match nodes[zipFile]
      case Directory => None
      case ZipFile(entries) => Some(ZipStream(entries, false))
      case _ => Some(ZipStream([], false))
  }

  /** `importMemories(context, zipFile)`. */
  method ImportMemoriesFromFile(fs: FileSystem, filesDir: Path, codec: TextCodec, zipFile: Path)
    returns (r: Option<ExportData>)
    modifies fs
    ensures ArchiveAt(old(fs.nodes), zipFile).None? ==> r.None? && fs.nodes == old(fs.nodes)
    ensures ArchiveAt(old(fs.nodes), zipFile).Some? ==>
      var p := ImportRun(filesDir, codec, old(fs.nodes), ArchiveAt(old(fs.nodes), zipFile).value);
      fs.nodes == p.nodes && r == Imported(p)
  {
    if !fs.Exists(zipFile) || fs.nodes[zipFile].Directory? {
      return None;
    }
    var stream := match fs.nodes[zipFile]
      case ZipFile(entries) => ZipStream(entries, false)
      case _ => ZipStream([], false);
    r := ReadArchive(fs, filesDir, codec, stream);
  }

  // ---------------------------------------------------------------------
  // Import: lemmas about the fold

  lemma UnpackAllSnoc(filesDir: Path, codec: TextCodec, p: Progress, entries: seq<Entry>, i: nat)
    requires i < |entries|
    ensures UnpackAll(filesDir, codec, p, entries[..i + 1])
         == Unpack(filesDir, codec, UnpackAll(filesDir, codec, p, entries[..i]), entries[i])
  {
    var t := entries[..i + 1];
    assert t != [] && t[..|t| - 1] == entries[..i] && t[|t| - 1] == entries[i];
  }

  /** Once reading has thrown, the remaining entries change nothing. */
  lemma {:induction false} UnpackAllFailedPrefix(filesDir: Path, codec: TextCodec, p: Progress, entries: seq<Entry>, i: nat)
    requires i <= |entries| && UnpackAll(filesDir, codec, p, entries[..i]).failed
    ensures UnpackAll(filesDir, codec, p, entries) == UnpackAll(filesDir, codec, p, entries[..i])
    decreases |entries| - i
  {
    if i < |entries| {
      UnpackAllSnoc(filesDir, codec, p, entries, i);
      UnpackAllFailedPrefix(filesDir, codec, p, entries, i + 1);
    } else {
      assert entries[..i] == entries;
    }
  }

  /** A thrown read stays thrown. */
  lemma UnpackAllFailedStays(filesDir: Path, codec: TextCodec, p: Progress, entries: seq<Entry>)
    requires entries != [] && UnpackAll(filesDir, codec, p, entries[..|entries| - 1]).failed
    ensures UnpackAll(filesDir, codec, p, entries).failed
  {
  }

  /** The snapshot of the last `data.json` entry: `null` when there is none
      or it holds a null document. */
  function LastSnapshot(codec: TextCodec, entries: seq<Entry>): Option<ExportData> {
    if entries == [] then None
    else
      var e := entries[|entries| - 1];
      if e.name == DATA_ENTRY then
        match DecodeSnapshot(codec, e.data)
        case Decoded(d) => Some(d)
        case _ => None
      else LastSnapshot(codec, entries[..|entries| - 1])
  }

  /** Without a `data.json` entry there is no snapshot. */
  lemma {:induction false} NoDataEntryNoSnapshot(codec: TextCodec, entries: seq<Entry>)
    requires forall k :: 0 <= k < |entries| ==> entries[k].name != DATA_ENTRY
    ensures LastSnapshot(codec, entries) == None
    decreases |entries|
  {
    if entries != [] {
      assert entries[|entries| - 1].name != DATA_ENTRY;
      NoDataEntryNoSnapshot(codec, entries[..|entries| - 1]);
    }
  }

  /** `data.json` is not a media entry. */
  lemma DataEntryIsNotMedia(filesDir: Path)
    ensures MediaTarget(filesDir, DATA_ENTRY).None?
  {
    assert DATA_ENTRY[0] != PHOTOS_FOLDER[0] && DATA_ENTRY[0] != AUDIOS_FOLDER[0];
  }

  /** A completed read holds the snapshot of the last `data.json` entry; a
      malformed `data.json` anywhere makes the read throw. */
  lemma {:induction false} UnpackAllSnapshot(filesDir: Path, codec: TextCodec, nodes: map<Path, Node>, entries: seq<Entry>)
    ensures var p := UnpackAll(filesDir, codec, Progress(None, nodes, false), entries);
      && (!p.failed ==> p.snapshot == LastSnapshot(codec, entries))
      && (forall k :: 0 <= k < |entries| && entries[k].name == DATA_ENTRY && DecodeSnapshot(codec, entries[k].data).Malformed? ==> p.failed)
    decreases |entries|
  {
    if entries != [] {
      var front, e := entries[..|entries| - 1], entries[|entries| - 1];
      UnpackAllSnapshot(filesDir, codec, nodes, front);
      var before := UnpackAll(filesDir, codec, Progress(None, nodes, false), front);
      if before.failed {
        UnpackAllFailedStays(filesDir, codec, Progress(None, nodes, false), entries);
      }
      forall k | 0 <= k < |entries| && entries[k].name == DATA_ENTRY && DecodeSnapshot(codec, entries[k].data).Malformed?
        ensures UnpackAll(filesDir, codec, Progress(None, nodes, false), entries).failed
      {
        if k < |front| {
          assert front[k] == entries[k];
        }
      }
    }
  }

  /** What either import returns, given the stream it reads: `null` when the
      archive is damaged, any `data.json` is malformed, or a media entry
      cannot be written; otherwise the snapshot of the last `data.json`
      entry, whatever its version, and `null` when there is none. */
  lemma ImportResult(filesDir: Path, codec: TextCodec, nodes: map<Path, Node>, stream: ZipStream)
    ensures var p := ImportRun(filesDir, codec, nodes, stream);
      && (!p.failed <==> !stream.damaged && !UnpackAll(filesDir, codec, Progress(None, nodes, false), stream.entries).failed)
      && Imported(p) == (if p.failed then None else LastSnapshot(codec, stream.entries))
      && ((forall k :: 0 <= k < |stream.entries| ==> stream.entries[k].name != DATA_ENTRY) ==> Imported(p) == None)
      && ((exists k :: 0 <= k < |stream.entries| && stream.entries[k].name == DATA_ENTRY
                       && DecodeSnapshot(codec, stream.entries[k].data).Malformed?) ==> Imported(p) == None)
  {
    UnpackAllSnapshot(filesDir, codec, nodes, stream.entries);
    if forall k :: 0 <= k < |stream.entries| ==> stream.entries[k].name != DATA_ENTRY {
      NoDataEntryNoSnapshot(codec, stream.entries);
    }
  }

  // ---------------------------------------------------------------------
  // Import: where the media land

  /** The media directories and the parent of a target are only ever added. */
  lemma PreparedExtends(nodes: map<Path, Node>, filesDir: Path, t: Target)
    ensures Extends(Prepared(nodes, filesDir, t), nodes)
  {
    var withDir := AfterGetter(nodes, filesDir, t.dir);
    assert Extends(MakeDirs(nodes, AppDir(filesDir)), nodes);
    assert Extends(withDir, nodes);
  }

  /** An entry that does not target `file` leaves it as it was. */
  lemma UnpackKeeps(filesDir: Path, codec: TextCodec, p: Progress, e: Entry, file: Path)
    requires file in p.nodes
    requires !(MediaTarget(filesDir, e.name).Some? && MediaTarget(filesDir, e.name).value.file == file)
    ensures file in Unpack(filesDir, codec, p, e).nodes
    ensures Unpack(filesDir, codec, p, e).nodes[file] == p.nodes[file]
  {
    if !p.failed && e.name != DATA_ENTRY && MediaTarget(filesDir, e.name).Some? {
      var t := MediaTarget(filesDir, e.name).value;
      var dirs := Prepared(p.nodes, filesDir, t);
      PreparedExtends(p.nodes, filesDir, t);
      assert file in dirs && dirs[file] == p.nodes[file];
      var q := Unpack(filesDir, codec, p, e);
      assert q.nodes == dirs[t.file := Blob(e.data)] || q.nodes == dirs;
    }
  }

  /** When the read completes, a media entry's bytes are in its target file,
      unless a later entry targets the same file. */
  lemma {:induction false} MediaLands(filesDir: Path, codec: TextCodec, nodes: map<Path, Node>, entries: seq<Entry>, i: nat)
    requires i < |entries| && MediaTarget(filesDir, entries[i].name).Some?
    requires forall k :: i < k < |entries| ==>
      !(MediaTarget(filesDir, entries[k].name).Some? &&
        MediaTarget(filesDir, entries[k].name).value.file == MediaTarget(filesDir, entries[i].name).value.file)
    ensures var p := UnpackAll(filesDir, codec, Progress(None, nodes, false), entries);
            var file := MediaTarget(filesDir, entries[i].name).value.file;
            !p.failed ==> file in p.nodes && p.nodes[file] == Blob(entries[i].data)
    decreases |entries|
  {
    var start := Progress(None, nodes, false);
    var front, e := entries[..|entries| - 1], entries[|entries| - 1];
    var file := MediaTarget(filesDir, entries[i].name).value.file;
    var before := UnpackAll(filesDir, codec, start, front);
    if before.failed {
      UnpackAllFailedStays(filesDir, codec, start, entries);
    } else if i == |entries| - 1 {
      DataEntryIsNotMedia(filesDir);
    } else {
      assert front[i] == entries[i];
      forall k | i < k < |front|
        ensures !(MediaTarget(filesDir, front[k].name).Some? && MediaTarget(filesDir, front[k].name).value.file == file)
      {
        assert front[k] == entries[k];
      }
      MediaLands(filesDir, codec, nodes, front, i);
      UnpackKeeps(filesDir, codec, before, e, file);
    }
  }

  // ---------------------------------------------------------------------
  // Export, then import

  lemma {:induction false} LastSnapshotSkips(codec: TextCodec, xs: seq<Entry>, ys: seq<Entry>)
    requires forall k :: 0 <= k < |ys| ==> ys[k].name != DATA_ENTRY
    ensures LastSnapshot(codec, xs + ys) == LastSnapshot(codec, xs)
    decreases |ys|
  {
    if ys != [] {
      var all, front := xs + ys, ys[..|ys| - 1];
      assert all[..|all| - 1] == xs + front;
      assert all[|all| - 1] == ys[|ys| - 1];
      assert ys[|ys| - 1].name != DATA_ENTRY;
      forall k | 0 <= k < |front|
        ensures front[k].name != DATA_ENTRY
      {
        assert front[k] == ys[k];
      }
      LastSnapshotSkips(codec, xs, front);
    } else {
      assert xs + ys == xs;
    }
  }

  /** Where the import puts what is archived under a media folder. */
  function MediaDir(filesDir: Path, folder: string): Path {
    if folder == PHOTOS_FOLDER then ImagesDir(filesDir) else AudioDir(filesDir)
  }

  lemma FolderTarget(filesDir: Path, folder: string, x: string)
    requires folder == PHOTOS_FOLDER || folder == AUDIOS_FOLDER
    ensures MediaTarget(filesDir, folder + x) == Some(Target(MediaDir(filesDir, folder), Join(MediaDir(filesDir, folder), x)))
  {
    var name := folder + x;
    assert name[..|folder|] == folder && name[|folder|..] == x;
    assert name[0] == folder[0];
  }

  lemma ArchivedTarget(filesDir: Path, e: Entry, folder: string, nodes: map<Path, Node>) returns (q: Path)
    requires ArchivedUnder(e, folder, nodes)
    requires folder == PHOTOS_FOLDER || folder == AUDIOS_FOLDER
    ensures q in nodes && e == Entry(folder + BaseName(q), Contents(nodes[q]))
    ensures e.name != DATA_ENTRY
    ensures MediaTarget(filesDir, e.name).Some?
  {
    q :| q in nodes && e == Entry(folder + BaseName(q), Contents(nodes[q]));
    MediaNameNotData(Media(folder, q));
    FolderTarget(filesDir, folder, BaseName(q));
  }

  /** The last `data.json` of a completed export is its own snapshot. */
  lemma ExportedSnapshot(nodes: map<Path, Node>, codec: TextCodec, ms: seq<MemoryEvent>,
                         anniversaries: seq<Anniversary>, today: CalendarDate)
    requires Faithful(codec)
    requires !ExportRun(nodes, codec, ms, anniversaries, today).failed
    ensures LastSnapshot(codec, ExportRun(nodes, codec, ms, anniversaries, today).entries) == Some(NewExportData(ms, anniversaries, today))
  {
    var run := ExportRun(nodes, codec, ms, anniversaries, today);
    ExportArchive(nodes, codec, ms, anniversaries, today);
    ExportDataFirst(nodes, codec, ms, anniversaries, today);
    var photos, audios := Included(nodes, PhotoPlan(ms)), Included(nodes, AudioPlan(ms));
    var media := photos + audios;
    forall k | 0 <= k < |media|
      ensures media[k].name != DATA_ENTRY
    {
      if k < |photos| {
        assert media[k] in photos;
        var _ := ArchivedTarget("", media[k], PHOTOS_FOLDER, nodes);
      } else {
        assert media[k] in audios;
        var _ := ArchivedTarget("", media[k], AUDIOS_FOLDER, nodes);
      }
    }
    var first := [run.entries[0]];
    ConcatAssoc(first, photos, audios);
    LastSnapshotSkips(codec, first, media);
  }

  /** Importing what a completed export wrote gives back, when the import
      completes, exactly the memories, anniversaries and date exported. */
  lemma ExportThenImport(nodes: map<Path, Node>, codec: TextCodec, ms: seq<MemoryEvent>,
                         anniversaries: seq<Anniversary>, today: CalendarDate,
                         filesDir: Path, target: map<Path, Node>)
    requires Faithful(codec)
    ensures var run := ExportRun(nodes, codec, ms, anniversaries, today);
            var p := ImportRun(filesDir, codec, target, ZipStream(run.entries, false));
            !run.failed && !p.failed ==> Imported(p) == Some(NewExportData(ms, anniversaries, today))
  {
    var run := ExportRun(nodes, codec, ms, anniversaries, today);
    if !run.failed {
      ExportedSnapshot(nodes, codec, ms, anniversaries, today);
      UnpackAllSnapshot(filesDir, codec, target, run.entries);
    }
  }

  /** Two names that the import writes to the same file are the same name. */
  lemma TargetInjective(filesDir: Path, a: string, b: string)
    requires MediaTarget(filesDir, a).Some? && MediaTarget(filesDir, b).Some?
    requires MediaTarget(filesDir, a).value.file == MediaTarget(filesDir, b).value.file
    ensures a == b
  {
    var n := |PHOTOS_FOLDER|;
    assert n == |AUDIOS_FOLDER|;
    if StartsWith(a, PHOTOS_FOLDER) == StartsWith(b, PHOTOS_FOLDER) {
      var dir := MediaTarget(filesDir, a).value.dir;
      JoinInjective(dir, a[n..], b[n..]);
      assert a == a[..n] + a[n..];
      assert b == b[..n] + b[n..];
    } else if StartsWith(a, PHOTOS_FOLDER) {
      MediaFilesApart(filesDir, a[n..], b[n..]);
      assert false;
    } else {
      MediaFilesApart(filesDir, b[n..], a[n..]);
      assert false;
    }
  }

  /** The writer never writes two entries of one name. */
  lemma PackDistinct(nodes: map<Path, Node>, s: Packing, m: Media)
    requires DistinctNames(s.entries)
    ensures DistinctNames(Pack(nodes, s, m).entries)
  {
    var t := Pack(nodes, s, m);
    if t.entries != s.entries {
      var n := |s.entries|;
      assert t.entries == s.entries + [t.entries[n]] && t.entries[n].name == EntryName(m);
      assert !HasName(s.entries, EntryName(m));
      forall i, j | 0 <= i < j < |t.entries|
        ensures t.entries[i].name != t.entries[j].name
      {
        assert t.entries[i] == s.entries[i];
        if j < n {
          assert t.entries[j] == s.entries[j];
        }
      }
    }
  }

  lemma {:induction false} PackAllDistinct(nodes: map<Path, Node>, s: Packing, plan: seq<Media>)
    requires DistinctNames(s.entries)
    ensures DistinctNames(PackAll(nodes, s, plan).entries)
    decreases |plan|
  {
    if plan != [] {
      PackAllDistinct(nodes, s, plan[..|plan| - 1]);
      PackDistinct(nodes, PackAll(nodes, s, plan[..|plan| - 1]), plan[|plan| - 1]);
    }
  }

  /** After a completed export and a completed import of its archive, every
      media entry of the archive is in the file the import targets for it,
      byte for byte. */
  lemma ExportThenImportEntry(nodes: map<Path, Node>, codec: TextCodec, ms: seq<MemoryEvent>,
                              anniversaries: seq<Anniversary>, today: CalendarDate,
                              filesDir: Path, target: map<Path, Node>, k: nat)
    requires 0 < k < |ExportRun(nodes, codec, ms, anniversaries, today).entries|
    ensures var run := ExportRun(nodes, codec, ms, anniversaries, today);
            var p := ImportRun(filesDir, codec, target, ZipStream(run.entries, false));
            var e := run.entries[k];
            !run.failed && !p.failed ==>
              && MediaTarget(filesDir, e.name).Some?
              && MediaTarget(filesDir, e.name).value.file in p.nodes
              && p.nodes[MediaTarget(filesDir, e.name).value.file] == Blob(e.data)
  {
    var run := ExportRun(nodes, codec, ms, anniversaries, today);
    var p := ImportRun(filesDir, codec, target, ZipStream(run.entries, false));
    if !run.failed && !p.failed {
      ExportArchive(nodes, codec, ms, anniversaries, today);
      var photos, audios := Included(nodes, PhotoPlan(ms)), Included(nodes, AudioPlan(ms));
      var e := run.entries[k];
      if k - 1 < |photos| {
        assert e == photos[k - 1];
        var _ := ArchivedTarget(filesDir, e, PHOTOS_FOLDER, nodes);
      } else {
        assert e == audios[k - 1 - |photos|];
        var _ := ArchivedTarget(filesDir, e, AUDIOS_FOLDER, nodes);
      }
      PackAllDistinct(nodes, Packing([DataEntry(codec, ms, anniversaries, today)], false), MediaPlan(ms));
      var file := MediaTarget(filesDir, e.name).value.file;
      forall j | k < j < |run.entries|
        ensures !(MediaTarget(filesDir, run.entries[j].name).Some? && MediaTarget(filesDir, run.entries[j].name).value.file == file)
      {
        if MediaTarget(filesDir, run.entries[j].name).Some? && MediaTarget(filesDir, run.entries[j].name).value.file == file {
          TargetInjective(filesDir, run.entries[j].name, e.name);
          assert false;
        }
      }
      MediaLands(filesDir, codec, target, run.entries, k);
    }
  }

  // ---------------------------------------------------------------------
  // Import: when it completes

  predicate IsDirectory(nodes: map<Path, Node>, p: Path) {
    p in nodes && nodes[p].Directory?
  }

  /** The app directory and both media directories exist, as they do once
      the getters have run. */
  predicate MediaDirsExist(nodes: map<Path, Node>, filesDir: Path) {
    && IsDirectory(nodes, AppDir(filesDir))
    && IsDirectory(nodes, ImagesDir(filesDir))
    && IsDirectory(nodes, AudioDir(filesDir))
  }

  /** An entry the read gets past: a `data.json` that is not malformed, or a
      media entry whose file sits directly in its media directory and is
      not a directory. */
  predicate Passable(filesDir: Path, codec: TextCodec, nodes: map<Path, Node>, e: Entry) {
    if e.name == DATA_ENTRY then !DecodeSnapshot(codec, e.data).Malformed?
    else match MediaTarget(filesDir, e.name)
      case None => true
      case Some(t) => Parent(t.file) == Some(t.dir) && !IsDirectory(nodes, t.file)
  }

  /** With the media directories in place, a read of passable entries does
      not throw and leaves every path as much a directory as it was. */
  lemma {:induction false} UnpackAllCompletes(filesDir: Path, codec: TextCodec, nodes: map<Path, Node>, entries: seq<Entry>)
    requires MediaDirsExist(nodes, filesDir)
    requires forall k :: 0 <= k < |entries| ==> Passable(filesDir, codec, nodes, entries[k])
    ensures var p := UnpackAll(filesDir, codec, Progress(None, nodes, false), entries);
      && !p.failed
      && forall q :: IsDirectory(p.nodes, q) <==> IsDirectory(nodes, q)
    decreases |entries|
  {
    if entries != [] {
      var front, e := entries[..|entries| - 1], entries[|entries| - 1];
      assert forall k :: 0 <= k < |front| ==> front[k] == entries[k];
      UnpackAllCompletes(filesDir, codec, nodes, front);
      var p := UnpackAll(filesDir, codec, Progress(None, nodes, false), front);
      assert Passable(filesDir, codec, nodes, e);
      if e.name != DATA_ENTRY && MediaTarget(filesDir, e.name).Some? {
        var t := MediaTarget(filesDir, e.name).value;
        assert t.dir == ImagesDir(filesDir) || t.dir == AudioDir(filesDir);
        assert MakeDirs(p.nodes, AppDir(filesDir)) == p.nodes;
        assert AfterGetter(p.nodes, filesDir, t.dir) == p.nodes;
        assert Prepared(p.nodes, filesDir, t) == p.nodes;
        assert CanCreate(p.nodes, t.file);
        var after := p.nodes[t.file := Blob(e.data)];
        forall q
          ensures IsDirectory(after, q) <==> IsDirectory(nodes, q)
        {
          if q != t.file {
            assert IsDirectory(after, q) == IsDirectory(p.nodes, q);
          }
        }
      }
    }
  }

  /** Importing what a completed export wrote completes, and so gives back
      the snapshot and every media file, whenever the media directories
      exist and none of the files the archive targets is a directory. */
  lemma ExportThenImportCompletes(nodes: map<Path, Node>, codec: TextCodec, ms: seq<MemoryEvent>,
                                  anniversaries: seq<Anniversary>, today: CalendarDate,
                                  filesDir: Path, target: map<Path, Node>)
    requires Faithful(codec)
    requires !ExportRun(nodes, codec, ms, anniversaries, today).failed
    requires MediaDirsExist(target, filesDir)
    requires var entries := ExportRun(nodes, codec, ms, anniversaries, today).entries;
      forall k :: 0 < k < |entries| && MediaTarget(filesDir, entries[k].name).Some? ==>
        !IsDirectory(target, MediaTarget(filesDir, entries[k].name).value.file)
    ensures var run := ExportRun(nodes, codec, ms, anniversaries, today);
            var p := ImportRun(filesDir, codec, target, ZipStream(run.entries, false));
            !p.failed && Imported(p) == Some(NewExportData(ms, anniversaries, today))
  {
    var run := ExportRun(nodes, codec, ms, anniversaries, today);
    ExportArchive(nodes, codec, ms, anniversaries, today);
    ExportDataFirst(nodes, codec, ms, anniversaries, today);
    var photos, audios := Included(nodes, PhotoPlan(ms)), Included(nodes, AudioPlan(ms));
    forall k | 0 <= k < |run.entries|
      ensures Passable(filesDir, codec, target, run.entries[k])
    {
      if k > 0 {
        var e := run.entries[k];
        var folder := if k - 1 < |photos| then PHOTOS_FOLDER else AUDIOS_FOLDER;
        if k - 1 < |photos| {
          assert e == photos[k - 1];
        } else {
          assert e == audios[k - 1 - |photos|];
        }
        var q := ArchivedTarget(filesDir, e, folder, nodes);
        var dir := MediaDir(filesDir, folder);
        FolderTarget(filesDir, folder, BaseName(q));
        JoinSplits(dir, BaseName(q));
      }
    }
    UnpackAllCompletes(filesDir, codec, target, run.entries);
    ExportThenImport(nodes, codec, ms, anniversaries, today, filesDir, target);
  }
}
