/** The add/edit form for a memory: `saveEvent`, the photo picker and
    thumbnails, and the recording and delete-recording buttons. A content
    URI is modelled by its string form (two `Uri`s are equal exactly when
    their strings are); what `ContentResolver` finds behind a URI, the
    clock readings taken while saving and the permission answer are
    parameters. */
module AddEditEventScreen {
  import opened Wrappers
  import opened Text
  import opened Dates
  import opened Paths
  import opened Records
  import opened Files
  import opened FileUtils
  import MemoryEventDao
  import Room
  import MemoryViewModel

  /** Removing `x` from a list (`list - x`): its first occurrence goes. */
  function RemoveFirst<T(==)>(xs: seq<T>, x: T): seq<T> {
    if xs == [] then []
    else if xs[0] == x then xs[1..]
    else [xs[0]] + RemoveFirst(xs[1..], x)
  }

  /** A list without `x` is unchanged; otherwise exactly the first
      occurrence, at index `i`, is cut out. */
  lemma {:induction false} RemoveFirstSpec<T>(xs: seq<T>, x: T) returns (i: nat)
    ensures x !in xs ==> RemoveFirst(xs, x) == xs
    ensures x in xs ==> i < |xs| && xs[i] == x && x !in xs[..i] && RemoveFirst(xs, x) == xs[..i] + xs[i + 1..]
    decreases |xs|
  {
    if xs == [] {
      i := 0;
    } else if xs[0] == x {
      i := 0;
    } else {
      var j := RemoveFirstSpec(xs[1..], x);
      i := j + 1;
      if x in xs {
        assert x in xs[1..];
        assert xs[..i] == [xs[0]] + xs[1..][..j];
        assert xs[i + 1..] == xs[1..][j + 1..];
      } else {
        assert xs == [xs[0]] + xs[1..];
      }
    }
  }

  /** One occurrence of `x` leaves the bag of elements. */
  lemma RemoveFirstMultiset<T>(xs: seq<T>, x: T)
    requires x in xs
    ensures multiset(RemoveFirst(xs, x)) == multiset(xs) - multiset{x}
  {
    var i := RemoveFirstSpec(xs, x);
    var before, after := xs[..i], xs[i + 1..];
    assert xs == before + [x] + after;
    assert multiset(xs) == multiset(before) + multiset{x} + multiset(after);
    assert multiset(RemoveFirst(xs, x)) == multiset(before) + multiset(after);
  }

  /** The thumbnails shown: the stored paths, then the picked URIs. */
  function AllImagePaths(currentImagePaths: seq<Path>, selectedImageUris: seq<string>): seq<string> {
    currentImagePaths + selectedImageUris
  }

  /** The file system while the picked images are saved, the clock readings
      of the images saved so far, and whether an uncaught exception ended
      the loop. */
  datatype Saving = Saving(nodes: map<Path, Node>, saved: seq<nat>, thrown: bool)

  /** One `saveImageFromUri` call, as a value: the new file system, whether
      it returned a path, and whether it threw. */
  datatype Step = Step(nodes: map<Path, Node>, took: bool, thrown: bool)

  /** `CanCreate` for a generated image path, whose parent is the images
      directory. */
  predicate CanCreateImage(nodes: map<Path, Node>, filesDir: Path, file: Path) {
    && !(file in nodes && nodes[file].Directory?)
    && ImagesDir(filesDir) in nodes && nodes[ImagesDir(filesDir)].Directory?
  }

  lemma CanCreateImagePath(nodes: map<Path, Node>, filesDir: Path, now: nat)
    ensures CanCreateImage(nodes, filesDir, ImagePath(filesDir, now)) <==> CanCreate(nodes, ImagePath(filesDir, now))
  {
    SavedImagePath(filesDir, now);
  }

  function SaveOne(nodes: map<Path, Node>, filesDir: Path, source: ImageSource, now: nat): (s: Step)
    ensures s.took ==> source.Decoded? && !s.thrown
  {
    if source.Unopenable? then Step(nodes, false, false)
    else
      var dirs := AfterGetter(nodes, filesDir, ImagesDir(filesDir));
      var file := ImagePath(filesDir, now);
      if !CanCreateImage(dirs, filesDir, file) then Step(dirs, false, false)
      else if source.Undecodable? then Step(dirs[file := Blob([])], false, true)
      else Step(dirs[file := Blob(source.jpeg)], true, false)
  }

  /** Saving the picked images from the `i`-th on, where `sources[i]` is
      what the `i`-th picked URI resolves to and `readings[i]` the clock
      reading while saving it: the file system afterwards, the readings of
      the images that were saved, and whether an exception ended the loop.
      Every saved image is a later pick's, and different readings give
      different saved images. */
  function SaveFrom(nodes: map<Path, Node>, filesDir: Path, sources: seq<ImageSource>, readings: seq<nat>, i: nat)
    : (s: Saving)
    requires i <= |sources| <= |readings|
    ensures |s.saved| <= |sources| - i
    ensures forall k :: 0 <= k < |s.saved| ==> s.saved[k] in readings[i..|sources|]
    ensures (forall a, b :: i <= a < b < |sources| ==> readings[a] != readings[b]) ==>
      forall k, l :: 0 <= k < l < |s.saved| ==> s.saved[k] != s.saved[l]
    decreases |sources| - i
  {
    if i == |sources| then Saving(nodes, [], false)
    else
      var o := SaveOne(nodes, filesDir, sources[i], readings[i]);
      if o.thrown then Saving(o.nodes, [], true)
      else
        var rest := SaveFrom(o.nodes, filesDir, sources, readings, i + 1);
        var later := readings[i..|sources|];
        assert later == [readings[i]] + readings[i + 1..|sources|];
        var saved := (if o.took then [readings[i]] else []) + rest.saved;
        assert forall k :: 0 <= k < |saved| ==> saved[k] in later;
        Saving(rest.nodes, saved, rest.thrown)
  }

  /** Saving every picked image. */
  function SaveAll(nodes: map<Path, Node>, filesDir: Path, sources: seq<ImageSource>, readings: seq<nat>): Saving
    requires |sources| <= |readings|
  {
    SaveFrom(nodes, filesDir, sources, readings, 0)
  }

  /** The paths of the images saved at the given clock readings. */
  function SavedPaths(filesDir: Path, saved: seq<nat>): (paths: seq<Path>)
    ensures |paths| == |saved|
    ensures forall k :: 0 <= k < |saved| ==> paths[k] == ImagePath(filesDir, saved[k])
    decreases |saved|
  {
    if saved == [] then []
    else SavedPaths(filesDir, saved[..|saved| - 1]) + [ImagePath(filesDir, saved[|saved| - 1])]
  }

  /** As long as the clock moves between two images, no two saved images
      share a file. */
  lemma SavedPathsDistinct(nodes: map<Path, Node>, filesDir: Path, sources: seq<ImageSource>, readings: seq<nat>)
    requires |sources| <= |readings|
    requires forall i, j :: 0 <= i < j < |sources| ==> readings[i] != readings[j]
    ensures var paths := SavedPaths(filesDir, SaveAll(nodes, filesDir, sources, readings).saved);
      forall k, l :: 0 <= k < l < |paths| ==> paths[k] != paths[l]
  {
    var s := SaveAll(nodes, filesDir, sources, readings);
    var paths := SavedPaths(filesDir, s.saved);
    forall k, l | 0 <= k < l < |paths|
      ensures paths[k] != paths[l]
    {
      if paths[k] == paths[l] {
        JoinInjective(ImagesDir(filesDir), ImageFileName(s.saved[k]), ImageFileName(s.saved[l]));
        GeneratedNamesDistinct(s.saved[k], s.saved[l]);
        assert false;
      }
    }
  }

  /** The memory `saveEvent` builds: an edit keeps the id and creation time
      of the memory being edited, a new memory asks for a fresh key and is
      created now. */
  function BuiltEvent(editing: Option<MemoryEvent>, title: string, message: string, date: CalendarDate,
                      photoPaths: seq<Path>, audioPath: Option<Path>, now: Int64): (e: MemoryEvent)
    ensures e.title == title && e.message == message && e.date == date
    ensures e.photoPaths == photoPaths && e.audioPath == audioPath
    ensures editing.Some? ==> e.id == editing.value.id && e.createdAt == editing.value.createdAt
    ensures editing.None? ==> e.id == UNSET_ID && e.createdAt == now
  {
    match editing
    case Some(before) => before.(title := title, message := message, date := date, photoPaths := photoPaths, audioPath := audioPath)
    case None => NewMemoryEvent(title, date, message, now).(photoPaths := photoPaths, audioPath := audioPath)
  }

  /** Saving an edited memory that is still stored replaces its row with
      the form's contents and touches no other row. */
  lemma EditReplacesRow(rows: map<int, MemoryEvent>, editing: MemoryEvent, title: string, message: string,
                        date: CalendarDate, photoPaths: seq<Path>, audioPath: Option<Path>, now: Int64)
    requires editing.id in rows
    ensures var e := BuiltEvent(Some(editing), title, message, date, photoPaths, audioPath, now);
      var t := MemoryEventDao.Update(rows, e);
      && t.Keys == rows.Keys
      && t[editing.id] == e
      && e.createdAt == editing.createdAt
      && (forall k :: k in rows && k != editing.id ==> t[k] == rows[k])
  {
  }

  /** The `mapNotNull` loop of `saveEvent`: each picked image in turn;
      the first exception leaves the loop. */
  method SaveImages(fs: FileSystem, filesDir: Path, sources: seq<ImageSource>, readings: seq<nat>)
    returns (newImagePaths: seq<Path>, thrown: bool)
    requires |sources| <= |readings|
    modifies fs
    ensures var s := SaveAll(old(fs.nodes), filesDir, sources, readings);
      && fs.nodes == s.nodes && thrown == s.thrown
      && (!thrown ==> newImagePaths == SavedPaths(filesDir, s.saved))
  {
    newImagePaths := [];
    ghost var done: seq<nat> := [];
    var i := 0;
    while i < |sources|
      invariant 0 <= i <= |sources|
      invariant newImagePaths == SavedPaths(filesDir, done)
      invariant var rest := SaveFrom(fs.nodes, filesDir, sources, readings, i);
        SaveAll(old(fs.nodes), filesDir, sources, readings) == Saving(rest.nodes, done + rest.saved, rest.thrown)
    {
      CanCreateImagePath(AfterGetter(fs.nodes, filesDir, ImagesDir(filesDir)), filesDir, readings[i]);
      ghost var rest := SaveFrom(fs.nodes, filesDir, sources, readings, i);
      var r := SaveImageFromUri(fs, filesDir, sources[i], readings[i]);
      if r.Thrown? {
        assert done + [] == done;
        return newImagePaths, true;
      }
      ghost var next := SaveFrom(fs.nodes, filesDir, sources, readings, i + 1);
      if r.value.Some? {
        assert rest.saved == [readings[i]] + next.saved;
        ConcatAssoc(done, [readings[i]], next.saved);
        assert (done + [readings[i]])[..|done|] == done;
        newImagePaths := newImagePaths + [r.value.value];
        done := done + [readings[i]];
      } else {
        assert rest.saved == next.saved;
      }
      i := i + 1;
    }
    assert done + [] == done;
    thrown := false;
  }

  /** The form's state and the view model it saves through. */
  class EventForm {
    const vm: MemoryViewModel.MemoryViewModel
    const editingEvent: Option<MemoryEvent>
    var title: string
    var message: string
    var selectedDate: CalendarDate
    var selectedImageUris: seq<string>
    var currentImagePaths: seq<Path>
    var currentAudioPath: Option<Path>

    predicate Valid()
      reads this, vm, vm.table
    {
      vm.Valid()
    }

    /** The title, message and date fields are as they were. */
    twostate predicate TextKept()
      reads this
    {
      title == old(title) && message == old(message) && selectedDate == old(selectedDate)
    }

    /** The picked URIs and the stored photo paths are as they were. */
    twostate predicate ImagesKept()
      reads this
    {
      selectedImageUris == old(selectedImageUris) && currentImagePaths == old(currentImagePaths)
    }

    /** The form opens on the memory being edited, or empty on today. */
    constructor(vm: MemoryViewModel.MemoryViewModel, editingEvent: Option<MemoryEvent>, today: CalendarDate)
      requires vm.Valid()
      ensures this.vm == vm && this.editingEvent == editingEvent && Valid()
      ensures editingEvent.Some? ==>
        && title == editingEvent.value.title && message == editingEvent.value.message
        && selectedDate == editingEvent.value.date
        && currentImagePaths == editingEvent.value.photoPaths
        && currentAudioPath == editingEvent.value.audioPath
      ensures editingEvent.None? ==>
        title == "" && message == "" && selectedDate == today && currentImagePaths == [] && currentAudioPath == None
      ensures selectedImageUris == []
    {
      this.vm := vm;
      this.editingEvent := editingEvent;
      match editingEvent {
        case Some(e) =>
          title, message, selectedDate := e.title, e.message, e.date;
          currentImagePaths, currentAudioPath := e.photoPaths, e.audioPath;
        case None =>
          title, message, selectedDate := "", "", today;
          currentImagePaths, currentAudioPath := [], None;
      }
      selectedImageUris := [];
    }

    /** `saveEvent`: nothing with a blank title or message; otherwise the
        picked images are saved, appended to the stored paths and the memory
        is updated (when editing) or inserted. An exception from saving an
        image is caught and printed: the memory is not saved and the form
        stays open. `saved` is whether it navigates back; `uncaught` is the
        exception of an insert, which ends the app's process after the
        screen has navigated back. */
    method Save(filesDir: Path, sources: seq<ImageSource>, readings: seq<nat>, now: Int64)
      returns (saved: bool, uncaught: Option<Room.SqlError>)
      requires Valid() && |sources| == |selectedImageUris| == |readings|
      modifies vm.fs, vm.table
      ensures Valid()
      ensures IsBlank(title) || IsBlank(message) ==>
        !saved && uncaught.None? && vm.fs.nodes == old(vm.fs.nodes)
        && vm.table.rows == old(vm.table.rows) && vm.table.sequence == old(vm.table.sequence)
      ensures !IsBlank(title) && !IsBlank(message) ==>
        var s := SaveAll(old(vm.fs.nodes), filesDir, sources, readings);
        var e := BuiltEvent(editingEvent, title, message, selectedDate, currentImagePaths + SavedPaths(filesDir, s.saved), currentAudioPath, now);
        && vm.fs.nodes == s.nodes
        && saved == !s.thrown
        && (s.thrown ==> vm.table.rows == old(vm.table.rows) && vm.table.sequence == old(vm.table.sequence))
        && (s.thrown || editingEvent.Some? ==> uncaught.None?)
        && (!s.thrown && editingEvent.Some? ==>
              vm.table.rows == MemoryEventDao.Update(old(vm.table.rows), e) && vm.table.sequence == old(vm.table.sequence))
        && (!s.thrown && editingEvent.None? ==>
              var t := MemoryEventDao.Insert(old(vm.table.rows), old(vm.table.sequence), e);
              && vm.table.rows == t.rows && vm.table.sequence == t.sequence
              && uncaught == (if t.result.Thrown? then Some(t.result.error) else None))
    {
      uncaught := None;
      if IsBlank(title) || IsBlank(message) {
        return false, None;
      }
      var newImagePaths, thrown := SaveImages(vm.fs, filesDir, sources, readings);
      if thrown {
        return false, None;
      }
      var event := BuiltEvent(editingEvent, title, message, selectedDate, currentImagePaths + newImagePaths, currentAudioPath, now);
      if editingEvent.Some? {
        vm.UpdateEvent(event);
      } else {
        uncaught := vm.InsertEvent(event);
      }
      saved := true;
    }

    /** The picker's result replaces the earlier picks. */
    method PickImages(uris: seq<string>)
      modifies this
      ensures selectedImageUris == uris && currentImagePaths == old(currentImagePaths)
      ensures TextKept() && currentAudioPath == old(currentAudioPath)
    {
      selectedImageUris := uris;
    }

    /** A thumbnail's delete button: a stored path is removed from the
        stored paths, otherwise the picked URI with that string. Either way
        exactly one copy of the thumbnail leaves the grid. */
    method RemoveThumbnail(imagePath: string)
      requires imagePath in AllImagePaths(currentImagePaths, selectedImageUris)
      modifies this
      ensures TextKept() && currentAudioPath == old(currentAudioPath)
      ensures imagePath in old(currentImagePaths) ==>
        currentImagePaths == RemoveFirst(old(currentImagePaths), imagePath) && selectedImageUris == old(selectedImageUris)
      ensures imagePath !in old(currentImagePaths) ==>
        selectedImageUris == RemoveFirst(old(selectedImageUris), imagePath) && currentImagePaths == old(currentImagePaths)
      ensures multiset(AllImagePaths(currentImagePaths, selectedImageUris))
        == multiset(AllImagePaths(old(currentImagePaths), old(selectedImageUris))) - multiset{imagePath}
    {
      if imagePath in currentImagePaths {
        RemoveFirstMultiset(currentImagePaths, imagePath);
        currentImagePaths := RemoveFirst(currentImagePaths, imagePath);
      } else {
        RemoveFirstMultiset(selectedImageUris, imagePath);
        selectedImageUris := RemoveFirst(selectedImageUris, imagePath);
      }
    }

    /** "Clear all photos": the picks and the stored paths; no file is
        deleted. */
    method ClearPhotos()
      modifies this
      ensures AllImagePaths(currentImagePaths, selectedImageUris) == []
      ensures TextKept() && currentAudioPath == old(currentAudioPath)
    {
      selectedImageUris := [];
      currentImagePaths := [];
    }

    /** The record button with the permission granted: a running recording
        is stopped and its path, as the screen last saw it, becomes the
        form's recording; otherwise a recording starts into a new file of
        the audio directory named after the clock reading `now`. Without the
        permission only the permission dialog opens. */
    method ToggleRecording(fs: FileSystem, filesDir: Path, granted: bool, started: bool, now: nat)
      requires Valid() && fs == vm.fs
      modifies this, vm, fs
      ensures Valid() && vm.currentEvent == old(vm.currentEvent)
      ensures TextKept() && ImagesKept()
      ensures !granted ==>
        vm.uiState == old(vm.uiState) && currentAudioPath == old(currentAudioPath) && fs.nodes == old(fs.nodes)
      ensures granted && old(vm.uiState.isRecording) ==>
        && currentAudioPath == old(vm.uiState.recordingPath)
        && vm.uiState == old(vm.uiState).(isRecording := false, recordingPath := None)
        && fs.nodes == old(fs.nodes)
      ensures granted && !old(vm.uiState.isRecording) ==>
        && currentAudioPath == old(currentAudioPath)
        && vm.uiState == old(vm.uiState).(isRecording := started,
                                          recordingPath := if started then Some(Join(AudioDir(filesDir), AudioFileName(now))) else None)
        && fs.nodes == AfterGetter(old(fs.nodes), filesDir, AudioDir(filesDir))
    {
      if !granted {
        return;
      }
      if vm.uiState.isRecording {
        var shown := vm.uiState.recordingPath;
        vm.StopRecording();
        currentAudioPath := shown;
      } else {
        var audioDir := GetAudioDirectory(fs, filesDir);
        var fileName := AudioFileName(now);
        vm.StartRecording(Join(audioDir, fileName), started);
      }
    }

    /** "Delete recording": the file goes and the form forgets it. */
    method DeleteAudio()
      modifies this, vm.fs
      ensures currentAudioPath == None && TextKept() && ImagesKept()
      ensures old(currentAudioPath).Some? ==> vm.fs.nodes == Deleted(old(vm.fs.nodes), old(currentAudioPath).value)
      ensures old(currentAudioPath).None? ==> vm.fs.nodes == old(vm.fs.nodes)
    {
      DeleteFile(vm.fs, currentAudioPath);
      currentAudioPath := None;
    }
  }
}
