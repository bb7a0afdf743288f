/** `MemoryViewModel`: the screen state of the memory screens, and the
    deletes that remove a memory's media files before its row. The
    coroutines it launches are modelled as running to completion, one at a
    time; the audio recorder's answers are parameters. */
module MemoryViewModel {
  import opened Wrappers
  import opened Paths
  import opened Records
  import opened Files
  import FileUtils
  import MemoryEventDao
  import Room

  /** `MemoryUiState`; every field has the source's default. */
  datatype MemoryUiState = MemoryUiState(
    isRecording: bool := false,
    isPlayingAudio: bool := false,
    recordingPath: Option<string> := None,
    editingEvent: Option<MemoryEvent> := None,
    showRandomEvent: bool := false,
    isLoading: bool := false,
    errorMessage: Option<string> := None)

  /** A recording path is held exactly while a recording runs. */
  predicate RecordingAgrees(s: MemoryUiState) {
    s.isRecording <==> s.recordingPath.Some?
  }

  /** `m` is `n` with some paths removed and nothing else changed. */
  predicate Shrinks(n: map<Path, Node>, m: map<Path, Node>) {
    forall q :: q in m ==> q in n && m[q] == n[q]
  }

  /** `FileUtils.deleteFile` on a nullable path. */
  function DeletedOpt(nodes: map<Path, Node>, path: Option<Path>): map<Path, Node> {
    match path
    case None => nodes
    case Some(p) => Deleted(nodes, p)
  }

  /** `paths.forEach { deleteFile(it) }`. */
  function DeletedAll(nodes: map<Path, Node>, paths: seq<Path>): map<Path, Node>
    decreases |paths|
  {
    if paths == [] then nodes
    else Deleted(DeletedAll(nodes, paths[..|paths| - 1]), paths[|paths| - 1])
  }

  /** The files a memory refers to: its photos and its recording. */
  function MediaPaths(e: MemoryEvent): set<Path> {
    (set p | p in e.photoPaths) + (match e.audioPath case Some(a) => {a} case None => {})
  }

  /** The file system after a memory's photos, then its recording, are
      deleted. */
  function DeletedMedia(nodes: map<Path, Node>, e: MemoryEvent): map<Path, Node> {
    DeletedOpt(DeletedAll(nodes, e.photoPaths), e.audioPath)
  }

  /** The file system after the media of each memory in turn are deleted. */
  function ClearedMedia(nodes: map<Path, Node>, es: seq<MemoryEvent>): map<Path, Node>
    decreases |es|
  {
    if es == [] then nodes
    else DeletedMedia(ClearedMedia(nodes, es[..|es| - 1]), es[|es| - 1])
  }

  /** Every path some memory of `es` refers to. */
  function MediaOfAll(es: seq<MemoryEvent>): set<Path>
    decreases |es|
  {
    if es == [] then {} else MediaOfAll(es[..|es| - 1]) + MediaPaths(es[|es| - 1])
  }

  /** A single delete only removes, and removes a file it is given. */
  lemma DeletedShrinks(nodes: map<Path, Node>, p: Path)
    ensures Shrinks(nodes, Deleted(nodes, p))
    ensures forall q :: q in nodes && q != p ==> q in Deleted(nodes, p)
    ensures p in nodes && !nodes[p].Directory? ==> p !in Deleted(nodes, p)
  {
    DeletedEffect(nodes, p);
  }

  /** Deleting a list of paths removes every one of them that was a file,
      keeps every path not in the list, and changes no file's content. */
  lemma {:induction false} DeletedAllSpec(nodes: map<Path, Node>, paths: seq<Path>)
    ensures Shrinks(nodes, DeletedAll(nodes, paths))
    ensures forall q :: q in nodes && q !in paths ==> q in DeletedAll(nodes, paths)
    ensures forall q :: q in paths && q in nodes && !nodes[q].Directory? ==> q !in DeletedAll(nodes, paths)
    decreases |paths|
  {
    if paths != [] {
      var init, last := paths[..|paths| - 1], paths[|paths| - 1];
      assert paths == init + [last];
      var m := DeletedAll(nodes, init);
      DeletedAllSpec(nodes, init);
      DeletedShrinks(m, last);
    }
  }

  /** Deleting a memory's media removes each of its files, keeps every path
      it does not refer to, and changes no file's content. */
  lemma DeletedMediaSpec(nodes: map<Path, Node>, e: MemoryEvent)
    ensures Shrinks(nodes, DeletedMedia(nodes, e))
    ensures forall q :: q in nodes && q !in MediaPaths(e) ==> q in DeletedMedia(nodes, e)
    ensures forall q :: q in MediaPaths(e) && q in nodes && !nodes[q].Directory? ==> q !in DeletedMedia(nodes, e)
  {
    var m := DeletedAll(nodes, e.photoPaths);
    DeletedAllSpec(nodes, e.photoPaths);
    if e.audioPath.Some? {
      DeletedShrinks(m, e.audioPath.value);
    }
  }

  /** Clearing the media of a list of memories removes every file any of
      them refers to, keeps every other path, and changes no content. */
  lemma {:induction false} ClearedMediaSpec(nodes: map<Path, Node>, es: seq<MemoryEvent>)
    ensures Shrinks(nodes, ClearedMedia(nodes, es))
    ensures forall q :: q in nodes && q !in MediaOfAll(es) ==> q in ClearedMedia(nodes, es)
    ensures forall q :: q in MediaOfAll(es) && q in nodes && !nodes[q].Directory? ==> q !in ClearedMedia(nodes, es)
    decreases |es|
  {
    if es != [] {
      var init, last := es[..|es| - 1], es[|es| - 1];
      var m := ClearedMedia(nodes, init);
      ClearedMediaSpec(nodes, init);
      DeletedMediaSpec(m, last);
    }
  }

  /** A path belongs to the media of a list exactly when it belongs to the
      media of one of its memories. */
  lemma {:induction false} MediaOfAllMembers(es: seq<MemoryEvent>, q: Path)
    ensures q in MediaOfAll(es) <==> exists e :: e in es && q in MediaPaths(e)
    decreases |es|
  {
    if es != [] {
      var init, last := es[..|es| - 1], es[|es| - 1];
      assert es == init + [last];
      MediaOfAllMembers(init, q);
    }
  }

  /** The photo loop of `deleteEvent`, then its `deleteFile(audioPath)`. */
  method DeleteMediaOf(fs: FileSystem, e: MemoryEvent)
    modifies fs
    ensures fs.nodes == DeletedMedia(old(fs.nodes), e)
  {
    var i := 0;
    while i < |e.photoPaths|
      invariant 0 <= i <= |e.photoPaths|
      invariant fs.nodes == DeletedAll(old(fs.nodes), e.photoPaths[..i])
    {
      FileUtils.DeleteFile(fs, Some(e.photoPaths[i]));
      assert e.photoPaths[..i + 1][..i] == e.photoPaths[..i];
      i := i + 1;
    }
    assert e.photoPaths[..i] == e.photoPaths;
    FileUtils.DeleteFile(fs, e.audioPath);
  }

  /** The file loop of `clearAllData`, over the memories it listed. */
  method DeleteMediaOfAll(fs: FileSystem, es: seq<MemoryEvent>)
    modifies fs
    ensures fs.nodes == ClearedMedia(old(fs.nodes), es)
  {
    var i := 0;
    while i < |es|
      invariant 0 <= i <= |es|
      invariant fs.nodes == ClearedMedia(old(fs.nodes), es[..i])
    {
      DeleteMediaOf(fs, es[i]);
      assert es[..i + 1][..i] == es[..i];
      i := i + 1;
    }
    assert es[..i] == es;
  }

  class MemoryViewModel {
    const table: MemoryEventDao.MemoryEventTable
    const fs: FileSystem
    var uiState: MemoryUiState
    var currentEvent: Option<MemoryEvent>

    predicate Valid()
      reads this, table
    {
      table.Valid() && RecordingAgrees(uiState)
    }

    /** A fresh view model: the default state and no current memory. */
    constructor(table: MemoryEventDao.MemoryEventTable, fs: FileSystem)
      requires table.Valid()
      ensures this.table == table && this.fs == fs
      ensures uiState == MemoryUiState() && currentEvent == None
      ensures Valid()
    {
      this.table := table;
      this.fs := fs;
      uiState := MemoryUiState();
      currentEvent := None;
    }

    /** `insertEvent`: the insert runs in `viewModelScope.launch`, which has
        no exception handler, so an exception the insert throws is uncaught
        and ends the app's process; `uncaught` is that exception. The key
        the insert returns is dropped. */
    method InsertEvent(e: MemoryEvent) returns (uncaught: Option<Room.SqlError>)
      requires Valid()
      modifies table
      ensures Valid()
      ensures var t := MemoryEventDao.Insert(old(table.rows), old(table.sequence), e);
        && table.rows == t.rows && table.sequence == t.sequence
        && uncaught == (if t.result.Thrown? then Some(t.result.error) else None)
    {
      var r := table.InsertEvent(e);
      uncaught := if r.Thrown? then Some(r.error) else None;
    }

    method UpdateEvent(e: MemoryEvent)
      requires Valid()
      modifies table
      ensures Valid()
      ensures table.rows == MemoryEventDao.Update(old(table.rows), e) && table.sequence == old(table.sequence)
    {
      table.UpdateEvent(e);
    }

    /** `deleteEvent`: the files the memory passed in refers to go first,
        then its row. */
    method DeleteEvent(e: MemoryEvent)
      requires Valid()
      modifies table, fs
      ensures Valid()
      ensures fs.nodes == DeletedMedia(old(fs.nodes), e)
      ensures table.rows == MemoryEventDao.Delete(old(table.rows), e) && table.sequence == old(table.sequence)
    {
      DeleteMediaOf(fs, e);
      table.DeleteEvent(e);
    }

    /** `getEventById`: the current memory becomes that row, or null. */
    method GetEventById(id: Int32)
      requires Valid()
      modifies this
      ensures Valid() && uiState == old(uiState)
      ensures currentEvent.Some? <==> id in table.rows
      ensures currentEvent.Some? ==> currentEvent.value == table.rows[id]
    {
      currentEvent := table.GetEventById(id);
    }

    /** `getRandomEvent`: the dialog shows exactly when a memory was drawn. */
    method GetRandomEvent()
      requires Valid()
      modifies this
      ensures Valid()
      ensures currentEvent.None? <==> table.rows == map[]
      ensures currentEvent.Some? ==> currentEvent.value in table.rows.Values
      ensures uiState == old(uiState).(showRandomEvent := currentEvent.Some?)
    {
      var r := table.GetRandomEvent();
      currentEvent := r;
      uiState := uiState.(showRandomEvent := r.Some?);
    }

    /** `startRecording(outputPath)`; `success` is what the recorder
        answered. */
    method StartRecording(outputPath: string, success: bool)
      requires Valid()
      modifies this
      ensures Valid() && currentEvent == old(currentEvent)
      ensures uiState == old(uiState).(isRecording := success,
                                       recordingPath := if success then Some(outputPath) else None)
    {
      uiState := uiState.(isRecording := success, recordingPath := if success then Some(outputPath) else None);
    }

    method StopRecording()
      requires Valid()
      modifies this
      ensures Valid() && currentEvent == old(currentEvent)
      ensures uiState == old(uiState).(isRecording := false, recordingPath := None)
    {
      uiState := uiState.(isRecording := false, recordingPath := None);
    }

    /** `playAudio`: playing until the completion callback or `stopAudio`. */
    method PlayAudio(audioPath: string)
      requires Valid()
      modifies this
      ensures Valid() && currentEvent == old(currentEvent)
      ensures uiState == old(uiState).(isPlayingAudio := true)
    {
      uiState := uiState.(isPlayingAudio := true);
    }

    /** The completion callback `playAudio` hands the player. */
    method PlaybackCompleted()
      requires Valid()
      modifies this
      ensures Valid() && currentEvent == old(currentEvent)
      ensures uiState == old(uiState).(isPlayingAudio := false)
    {
      uiState := uiState.(isPlayingAudio := false);
    }

    method StopAudio()
      requires Valid()
      modifies this
      ensures Valid() && currentEvent == old(currentEvent)
      ensures uiState == old(uiState).(isPlayingAudio := false)
    {
      uiState := uiState.(isPlayingAudio := false);
    }

    method UpdateEditingEvent(e: Option<MemoryEvent>)
      requires Valid()
      modifies this
      ensures Valid() && currentEvent == old(currentEvent)
      ensures uiState == old(uiState).(editingEvent := e)
    {
      uiState := uiState.(editingEvent := e);
    }

    method HideRandomEvent()
      requires Valid()
      modifies this
      ensures Valid() && currentEvent == old(currentEvent)
      ensures uiState == old(uiState).(showRandomEvent := false)
    {
      uiState := uiState.(showRandomEvent := false);
    }

    /** `clearAllData`: every file any stored memory refers to is deleted,
        nothing else on disk changes, and then the table is emptied. */
    method ClearAllData()
      requires Valid()
      modifies table, fs
      ensures Valid()
      ensures table.rows == map[] && table.sequence == old(table.sequence)
      ensures Shrinks(old(fs.nodes), fs.nodes)
      ensures forall q :: q in old(fs.nodes) && (forall e :: e in old(table.rows.Values) ==> q !in MediaPaths(e))
                ==> q in fs.nodes
      ensures forall e, q :: (e in old(table.rows.Values) && q in MediaPaths(e) && q in old(fs.nodes)
                                && !old(fs.nodes)[q].Directory?) ==> q !in fs.nodes
    {
      var events := table.GetAllEvents();
      ghost var before := fs.nodes;
      ghost var stored := table.rows.Values;
      DeleteMediaOfAll(fs, events);
      ClearedMediaSpec(before, events);
      forall e
        ensures e in events <==> e in stored
      {
        assert e in events <==> e in multiset(events);
        assert e in stored <==> e in multiset(stored);
      }
      forall q | q in before && (forall e :: e in stored ==> q !in MediaPaths(e))
        ensures q in fs.nodes
      {
        MediaOfAllMembers(events, q);
      }
      forall e, q | e in stored && q in MediaPaths(e) && q in before && !before[q].Directory?
        ensures q !in fs.nodes
      {
        MediaOfAllMembers(events, q);
        assert e in multiset(stored);
        assert e in events;
      }
      table.DeleteAllEvents();
    }
  }
}
