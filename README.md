# Memory: a verified model of the export/import core

"Memory" is an Android app for a couple's shared diary. It stores memories, which have a title, a date, a message, photos and an optional voice recording. It also stores anniversaries, users and shares of memories in a Room (SQLite) database.

This project models the app's backup core in Dafny:

- the ZIP backup (`data.json`, then `photos/…`, then `audios/…`);
- both imports;
- the plain-text report;
- the home screen's import callback, which rewrites media paths and re-inserts the memories, and its menu flags;
- `FileUtils` and the Room type converters;
- the records and their DAOs;
- the three view models;
- the memory form's save, photo and recording handlers;
- the anniversary screen's day label and confirm rule.

The model is organised as follows:

- Values (records, dates, JSON trees, archive entries) are datatypes.
- Each database table is a class holding a `map` of rows plus AUTOINCREMENT's `sqlite_sequence`.
- The file system is a class holding a `map` from absolute path to node.
- View models and screens are classes whose methods update their fields in place. The table, file system or view model each one works through is a `const` reference fixed by its constructor.

Each method's `ensures` ties its result and new state to a function of its inputs and old state (`Insert`, `SaveAll`, `ImportRun` and so on). Lemmas about those functions carry the properties, including:

- an export followed by an import gives back the snapshot and every media file when the import completes, and it completes whenever the media directories exist and no file it targets is a directory;
- the date and photo-list columns round-trip;
- the stored ISO text sorts chronologically;
- `sortedBy { it.date }` is the stable sort;
- AUTOINCREMENT never reuses an id;
- clear-then-set leaves exactly one current user.

Clocks, "today", random UUIDs, the content resolver and what it finds behind a URI, the audio recorder's answers, and the printer and reader between a JSON tree and bytes are all parameters.

Files:

| file | contents |
|---|---|
| `wrappers.dfy` | `Option` and `Result` |
| `text.dfy` | `isBlank` and decimal rendering |
| `paths.dfy` | `File(dir, name)`, `name` and `parentFile` |
| `dates.dfy` | `LocalDate`, ISO text, day counts and text order |
| `records.dfy` | the records |
| `room.dfy` | AUTOINCREMENT |
| `zip.dfy` | archive entries |
| `files.dfy` | the file system |
| `file_utils.dfy` | `FileUtils` |
| `converters.dfy` | `Converters` |
| `snapshot.dfy` | `ExportData` and its JSON |
| `archive.dfy` | export and import |
| `text_export.dfy` | `exportToText` |
| `listing.dfy` | `ORDER BY date` |
| `memory_dao.dfy`, `anniversary_dao.dfy`, `user_dao.dfy` | the DAOs |
| `memory_view_model.dfy`, `anniversary_view_model.dfy`, `user_view_model.dfy` | the view models |
| `home_screen.dfy`, `add_edit_event_screen.dfy`, `anniversary_screen.dfy` | the screens |

## Model

| member | source | states |
|---|---|---|
| Records.NewMemoryEvent | app/src/main/java/com/example/myapplication1/data/MemoryEvent.kt:7-17 | A memory built with the constructor's defaults has id 0 (assigned by the store), no photos and no recording, and carries the given title, date, message and creation time. |
| Records.NewAnniversary | app/src/main/java/com/example/myapplication1/data/Anniversary.kt:7-16 | A new anniversary has id 0, an empty description and is not important; its title, date and creation time are the given ones. |
| Records.NewUser | app/src/main/java/com/example/myapplication1/data/User.kt:6-14 | A new user has no avatar and is not the current user. |
| Records.NewSharedMemory | app/src/main/java/com/example/myapplication1/data/User.kt:16-25 | A share made without saying otherwise grants editing (`canEdit` defaults to true). |
| Records.NewUserProfile | app/src/main/java/com/example/myapplication1/data/User.kt:27-31 | A profile starts with both counters at zero. |
| Room.Bumped | app/src/main/java/com/example/myapplication1/data/MemoryEventDao.kt:14-15 | `sqlite_sequence` after storing key k is the larger of its old value and k, so it never goes down. |
| Room.ReadBackId | app/src/main/java/com/example/myapplication1/data/MemoryEvent.kt:9-10 | The `Int` id a row stored under key k reads back with is k exactly when k fits an `Int`, and is always congruent to k modulo 2^32. |
| Paths.LastSlash | app/src/main/java/com/example/myapplication1/utils/ExportImportUtils.kt:71-73 | The separator index really is the last `/` of the path, or -1 when the path has none. |
| Paths.BaseName | app/src/main/java/com/example/myapplication1/utils/ExportImportUtils.kt:71-73 | `File(p).name` holds no separator and is the suffix of the path after its last separator. |
| Paths.Parent | app/src/main/java/com/example/myapplication1/utils/ExportImportUtils.kt:126-127 | `parentFile` exists exactly when the path has a separator, and parent + "/" + name rebuilds the path. |
| Paths.JoinSplits | app/src/main/java/com/example/myapplication1/utils/FileUtils.kt:44-45 | `File(dir, name)` with a plain name has that name as its `name` and `dir` as its parent. |
| Paths.JoinInjective | app/src/main/java/com/example/myapplication1/utils/FileUtils.kt:44-45 | Different plain names in one directory give different paths. |
| Text.Decimal | app/src/main/java/com/example/myapplication1/utils/FileUtils.kt:44 | The rendering of a number is all digits, and is one digit long exactly for numbers below ten. |
| Text.DecimalInjective | app/src/main/java/com/example/myapplication1/utils/FileUtils.kt:58-60 | Different numbers render differently. |
| Text.DecimalNameInjective | app/src/main/java/com/example/myapplication1/utils/FileUtils.kt:58-60 | A name made of a fixed prefix, a number and a fixed suffix determines the number, so names built from different clock readings differ. |
| Dates.Format | app/src/main/java/com/example/myapplication1/data/Converters.kt:9-12 | `LocalDate.toString()` of a four-digit-year date is ten characters long. |
| Dates.Parse | app/src/main/java/com/example/myapplication1/data/Converters.kt:14-17 | A text `LocalDate.parse` accepts names a valid date and is exactly that date's ISO text. |
| Dates.ParseFormat | app/src/main/java/com/example/myapplication1/data/Converters.kt:9-17 | Parsing the ISO text of a date gives the date back. |
| Dates.FieldsFormat | app/src/main/java/com/example/myapplication1/data/Converters.kt:14-17 | An ISO-shaped text whose fields form a valid date is that date's formatted text, so parsing accepts only canonical text. |
| Dates.EpochDay | app/src/main/java/com/example/myapplication1/viewmodel/AnniversaryViewModel.kt:58-64 | Day numbers are counted from 1970-01-01, which is day 0. |
| Dates.DayNumberMonotone | app/src/main/java/com/example/myapplication1/viewmodel/AnniversaryViewModel.kt:58-64 | An earlier date has a smaller day number. |
| Dates.DayNumberInjective | app/src/main/java/com/example/myapplication1/viewmodel/AnniversaryViewModel.kt:58-64 | Two dates with the same day number are the same date. |
| Dates.Trichotomy | app/src/main/java/com/example/myapplication1/viewmodel/AnniversaryViewModel.kt:58-64 | Two dates are equal, or one is strictly before the other. |
| Dates.DaysBetweenSign | app/src/main/java/com/example/myapplication1/viewmodel/AnniversaryViewModel.kt:58-64 | `DAYS.between(from, to)` is positive exactly when from is before to, zero exactly on the same day, negative exactly when to comes first, and swapping the dates negates it. |
| Dates.NextDay | app/src/main/java/com/example/myapplication1/viewmodel/AnniversaryViewModel.kt:58-64 | The next calendar day is a valid date after the given one. |
| Dates.NextDayCounts | app/src/main/java/com/example/myapplication1/viewmodel/AnniversaryViewModel.kt:58-64 | Each calendar day adds exactly one to the day count. |
| Dates.YearStep | app/src/main/java/com/example/myapplication1/viewmodel/AnniversaryViewModel.kt:58-64 | The days before year y + 1 are the days before y plus the length of year y (Gregorian leap rule). |
| Dates.YearsGrow | app/src/main/java/com/example/myapplication1/viewmodel/AnniversaryViewModel.kt:58-64 | Every year adds at least 365 days. |
| Dates.DayInYear | app/src/main/java/com/example/myapplication1/viewmodel/AnniversaryViewModel.kt:58-64 | A date's day number lies inside its own year. |
| Dates.LexLessConcat | app/src/main/java/com/example/myapplication1/data/MemoryEventDao.kt:8 | Binary text comparison of two equal-length prefixes decides first, the suffixes only break a tie. |
| Dates.Pad2Order | app/src/main/java/com/example/myapplication1/data/MemoryEventDao.kt:8 | Two-digit text sorts as the numbers do, and equal text means equal numbers. |
| Dates.Pad4Order | app/src/main/java/com/example/myapplication1/data/MemoryEventDao.kt:8 | Four-digit text sorts as the numbers do, and equal text means equal numbers. |
| Dates.MonthDayOrder | app/src/main/java/com/example/myapplication1/data/MemoryEventDao.kt:8 | The `-MM-DD` tail sorts by month, then day. |
| Dates.TextOrderIsChronological | app/src/main/java/com/example/myapplication1/data/MemoryEventDao.kt:8 | The stored ISO text of two dates sorts, in SQLite's binary comparison, exactly as the dates do, and equal text means equal dates. |
| Converters.FromLocalDate | app/src/main/java/com/example/myapplication1/data/Converters.kt:9-12 | null stays null; a date becomes a ten-character text that parses back to the same date. |
| Converters.ToLocalDate | app/src/main/java/com/example/myapplication1/data/Converters.kt:14-17 | null stays null; a text that parses gives the date whose ISO text it is; any other text throws `DateTimeParseException`. |
| Converters.LocalDateRoundTrip | app/src/main/java/com/example/myapplication1/data/Converters.kt:9-17 | Writing then reading the date column gives the date back, null included. |
| Converters.ToLocalDateThrows | app/src/main/java/com/example/myapplication1/data/Converters.kt:14-17 | Reading a stored text throws exactly when no date has that text. |
| Converters.FromStringList | app/src/main/java/com/example/myapplication1/data/Converters.kt:19-22 | The list is written as a JSON array text, bracket first and last. |
| Converters.ToStringList | app/src/main/java/com/example/myapplication1/data/Converters.kt:24-31 | A non-empty result is exactly the strings of the JSON array the text holds; an empty text, `null` or malformed text gives the empty list. |
| Converters.UnescapeEscape | app/src/main/java/com/example/myapplication1/data/Converters.kt:19-31 | Each escape sequence Gson writes for a character reads back as that character. |
| Converters.QuadReads | app/src/main/java/com/example/myapplication1/data/Converters.kt:24-31 | The four hex digits written for any 16-bit value are read back by a `\u` escape as that value. |
| Converters.SurrogatePairReads | app/src/main/java/com/example/myapplication1/data/Converters.kt:24-31 | For every code point from U+10000 to U+10FFFF, its `\u` surrogate pair (high unit D800 plus the upper ten bits, low unit DC00 plus the lower ten) reads back as that one character, 12 characters consumed. |
| Converters.CharsRoundTrip | app/src/main/java/com/example/myapplication1/data/Converters.kt:19-31 | A written string body reads back to the string and stops at its closing quote. |
| Converters.ElementsRoundTrip | app/src/main/java/com/example/myapplication1/data/Converters.kt:19-31 | The written elements of a non-empty list read back to the list, through the closing bracket. |
| Converters.StringListRoundTrip | app/src/main/java/com/example/myapplication1/data/Converters.kt:19-31 | `toStringList(fromStringList(xs)) == xs`: the photo list column keeps contents and order. |
| Files.MakeDirs | app/src/main/java/com/example/myapplication1/utils/FileUtils.kt:14-20 | `if (!dir.exists()) dir.mkdirs()` only adds nodes; afterwards the directory exists unless something that is not a directory blocks it; when anything changed, the directory was created. |
| Files.MakeDirsSettles | app/src/main/java/com/example/myapplication1/utils/FileUtils.kt:14-20 | Creating a directory again, after steps that kept what the first call made, changes nothing. |
| Files.DeletedEffect | app/src/main/java/com/example/myapplication1/utils/FileUtils.kt:62-73 | Deleting touches no other path, removes an existing file, and leaves a missing path missing. |
| Files.FileSystem.Mkdirs | app/src/main/java/com/example/myapplication1/utils/FileUtils.kt:17 | `mkdirs` reports true exactly when the directory was missing and could be created, and then creates it with its missing parents. |
| Files.FileSystem.Delete | app/src/main/java/com/example/myapplication1/utils/FileUtils.kt:66-67 | `delete` reports true exactly when the path existed and is gone afterwards. |
| Files.FileSystem.Create | app/src/main/java/com/example/myapplication1/utils/FileUtils.kt:47 | Opening an output stream succeeds exactly when the path is not a directory and its parent directory exists, and then leaves an empty file. |
| Files.FileSystem.Append | app/src/main/java/com/example/myapplication1/utils/FileUtils.kt:49 | A write appends the bytes to the file. |
| Files.FileSystem.Store | app/src/main/java/com/example/myapplication1/utils/ExportImportUtils.kt:58-97 | Closing a stream leaves the written document in the file. |
| Files.FileSystem.Read | app/src/main/java/com/example/myapplication1/utils/ExportImportUtils.kt:75-77 | Reading a path gives the bytes of the media file there, and fails when the path is missing or a directory. An export document read as a media file also fails (see Left out). |
| FileUtils.GetAppDirectory | app/src/main/java/com/example/myapplication1/utils/FileUtils.kt:14-20 | The app directory is `filesDir/memories`, created when missing. |
| FileUtils.GetImagesDirectory | app/src/main/java/com/example/myapplication1/utils/FileUtils.kt:22-28 | The images directory is `filesDir/memories/images`, created with its parent when missing; afterwards it exists unless blocked. |
| FileUtils.GetAudioDirectory | app/src/main/java/com/example/myapplication1/utils/FileUtils.kt:30-36 | The audio directory is `filesDir/memories/audio`, created with its parent when missing; afterwards it exists unless blocked. |
| FileUtils.MediaDirsApart | app/src/main/java/com/example/myapplication1/utils/FileUtils.kt:22-36 | The images and audio directories are different siblings in the app directory, so no image file is an audio file. |
| FileUtils.MediaFilesApart | app/src/main/java/com/example/myapplication1/utils/FileUtils.kt:22-36 | No path under the images directory is a path under the audio directory. |
| FileUtils.GettersIdempotent | app/src/main/java/com/example/myapplication1/utils/FileUtils.kt:22-36 | Calling a directory getter again, after steps that only added nodes, changes nothing. |
| FileUtils.ImageFileName | app/src/main/java/com/example/myapplication1/utils/FileUtils.kt:44 | The generated image name is a plain, non-empty file name starting with `img_`. |
| FileUtils.AudioFileName | app/src/main/java/com/example/myapplication1/utils/FileUtils.kt:58-60 | The generated audio name is a plain, non-empty file name starting with `audio_`. |
| FileUtils.GeneratedNamesDistinct | app/src/main/java/com/example/myapplication1/utils/FileUtils.kt:44-60 | Generated names are equal exactly when the clock readings are, and an image name is never an audio name. |
| FileUtils.SaveImageFromUri | app/src/main/java/com/example/myapplication1/utils/FileUtils.kt:38-56 | An unopenable source gives null and changes nothing; otherwise the images directory is prepared and the file `img_<millis>.jpg` opened: null when it cannot be opened, an uncaught exception from `compress` on the null bitmap, with an empty file left behind, when the image does not decode, and otherwise the path of a file holding the JPEG bytes. |
| FileUtils.SavedImagePath | app/src/main/java/com/example/myapplication1/utils/FileUtils.kt:44-45 | A saved image sits directly in the images directory under its generated name. |
| FileUtils.DeleteFile | app/src/main/java/com/example/myapplication1/utils/FileUtils.kt:62-73 | A null path changes nothing; otherwise the path is deleted if it is a file or an empty directory, and nothing else changes. |
| FileUtils.FileExists | app/src/main/java/com/example/myapplication1/utils/FileUtils.kt:75-79 | False for null, otherwise exactly whether the path exists. |
| Snapshot.NewExportData | app/src/main/java/com/example/myapplication1/utils/ExportImportUtils.kt:37-42 | A new snapshot holds the given lists, today's ISO date as export date, and version "1.0". |
| Snapshot.StringsRoundTrip | app/src/main/java/com/example/myapplication1/utils/ExportImportUtils.kt:61 | A string list written as a JSON array reads back to the same list. |
| Snapshot.LookupLast | app/src/main/java/com/example/myapplication1/utils/ExportImportUtils.kt:122 | When a name repeats in an object, Gson keeps the last member of that name. |
| Snapshot.LookupAbsent | app/src/main/java/com/example/myapplication1/utils/ExportImportUtils.kt:122 | A name with no member reads as absent. |
| Snapshot.EventRoundTrip | app/src/main/java/com/example/myapplication1/utils/ExportImportUtils.kt:61-121 | A memory survives the trip through its JSON object: id, title, ISO date, message, photo list, nullable recording and creation time. |
| Snapshot.AnniversaryRoundTrip | app/src/main/java/com/example/myapplication1/utils/ExportImportUtils.kt:61-121 | An anniversary survives the trip through its JSON object. |
| Snapshot.EventsRoundTrip | app/src/main/java/com/example/myapplication1/utils/ExportImportUtils.kt:61-121 | A list of memories reads back to the same list, in order. |
| Snapshot.AnniversariesRoundTrip | app/src/main/java/com/example/myapplication1/utils/ExportImportUtils.kt:61-121 | A list of anniversaries reads back to the same list, in order. |
| Snapshot.LookupAppend | app/src/main/java/com/example/myapplication1/utils/ExportImportUtils.kt:122 | In joined member lists the second list decides a name it holds. |
| Snapshot.ExportDataLookup | app/src/main/java/com/example/myapplication1/utils/ExportImportUtils.kt:61 | Each of the four members of the written snapshot reads back as its field, and a null field leaves its member out. |
| Snapshot.JsonRoundTrip | app/src/main/java/com/example/myapplication1/utils/ExportImportUtils.kt:27-42 | Reading the tree Gson writes for a snapshot gives back the same `ExportData`, export date and version included. |
| Snapshot.SnapshotRoundTrip | app/src/main/java/com/example/myapplication1/utils/ExportImportUtils.kt:60-66 | A `data.json` written by the export reads back as the same snapshot, given a reader that reads what the printer writes. |
| ExportImportUtils.AddMedia | app/src/main/java/com/example/myapplication1/utils/ExportImportUtils.kt:71-79 | One media file: the writer throws exactly when the file exists and either its entry name was already written or it cannot be read; a missing file is skipped. |
| ExportImportUtils.CreateBackupFile | app/src/main/java/com/example/myapplication1/utils/ExportImportUtils.kt:50-58 | The exports directory is created when missing and `memories_backup_<millis>.zip` is opened empty; opening fails exactly when the path cannot be created. |
| ExportImportUtils.WriteArchive | app/src/main/java/com/example/myapplication1/utils/ExportImportUtils.kt:58-97 | The archive ends up holding the entries the writer got through, and the result is the archive path exactly when no entry threw. |
| ExportImportUtils.PackPhotos | app/src/main/java/com/example/myapplication1/utils/ExportImportUtils.kt:69-81 | The photo loops write every photo of every memory in memory then path order, until one throws. |
| ExportImportUtils.PackAudios | app/src/main/java/com/example/myapplication1/utils/ExportImportUtils.kt:84-96 | The audio loop continues the photo loops with the recording of each memory that has one. |
| ExportImportUtils.ExportMemories | app/src/main/java/com/example/myapplication1/utils/ExportImportUtils.kt:44-104 | The export returns null and leaves only the exports directory when the archive cannot be created; otherwise the archive holds what was written, and the result is its path exactly when nothing threw. |
| ExportImportUtils.PackAllFailedPrefix | app/src/main/java/com/example/myapplication1/utils/ExportImportUtils.kt:100-103 | Once the writer has thrown, the rest of the media plan changes nothing. |
| ExportImportUtils.PackOutcome | app/src/main/java/com/example/myapplication1/utils/ExportImportUtils.kt:71-79 | Adding one media file completes exactly when the file is missing, or is readable and its entry name is new; a completed add appends exactly one entry with the file's bytes for an existing file. |
| ExportImportUtils.PackAllOutcome | app/src/main/java/com/example/myapplication1/utils/ExportImportUtils.kt:69-96 | The writer completes exactly when every existing media file is readable and no two share an entry name, and then it appends one entry per existing file, in plan order. |
| ExportImportUtils.PackAllExtends | app/src/main/java/com/example/myapplication1/utils/ExportImportUtils.kt:58-97 | The writer only ever appends entries. |
| ExportImportUtils.IncludedUnder | app/src/main/java/com/example/myapplication1/utils/ExportImportUtils.kt:73-88 | Every entry from a one-folder plan is the folder followed by the base name of an existing file, holding that file's bytes. |
| ExportImportUtils.MediaNamesApart | app/src/main/java/com/example/myapplication1/utils/ExportImportUtils.kt:63-88 | No media entry is named `data.json`. |
| ExportImportUtils.ExportDataFirst | app/src/main/java/com/example/myapplication1/utils/ExportImportUtils.kt:60-66 | `data.json` always comes first and reads back as the snapshot of the memories and anniversaries passed in. |
| ExportImportUtils.ExportArchive | app/src/main/java/com/example/myapplication1/utils/ExportImportUtils.kt:44-104 | The export completes exactly when the media are exportable; a completed archive is `data.json`, then one `photos/<name>` entry per existing photo, then one `audios/<name>` entry per existing recording, each with the file's bytes. |
| ExportImportUtils.PackAllDistinct | app/src/main/java/com/example/myapplication1/utils/ExportImportUtils.kt:58-97 | The writer never writes two entries with one name. |
| ExportImportUtils.CopyEntry | app/src/main/java/com/example/myapplication1/utils/ExportImportUtils.kt:128-133 | The buffered copy loop writes exactly the entry's bytes into the new file. |
| ExportImportUtils.PrepareTarget | app/src/main/java/com/example/myapplication1/utils/ExportImportUtils.kt:124-127 | A media entry's target is prepared: its media directory and the target's parent are created when missing. |
| ExportImportUtils.ExtractMedia | app/src/main/java/com/example/myapplication1/utils/ExportImportUtils.kt:124-149 | A `photos/` or `audios/` entry is written to its target file in the prepared directory; the write fails exactly when the target cannot be opened. |
| ExportImportUtils.ReadArchive | app/src/main/java/com/example/myapplication1/utils/ExportImportUtils.kt:116-153 | The read loop leaves the file system and the result that the entry-by-entry read of the stream gives. |
| ExportImportUtils.ImportMemoriesFromUri | app/src/main/java/com/example/myapplication1/utils/ExportImportUtils.kt:106-161 | No stream gives null and changes nothing; otherwise the file system and the result are those of `ImportRun` over the stream. |
| ExportImportUtils.ImportMemoriesFromFile | app/src/main/java/com/example/myapplication1/utils/ExportImportUtils.kt:163-215 | A missing path or a directory gives null and changes nothing; otherwise the file system and the result are those of `ImportRun` over the file's archive. |
| ExportImportUtils.UnpackAllFailedPrefix | app/src/main/java/com/example/myapplication1/utils/ExportImportUtils.kt:155-160 | Once reading has thrown, the remaining entries change nothing. |
| ExportImportUtils.NoDataEntryNoSnapshot | app/src/main/java/com/example/myapplication1/utils/ExportImportUtils.kt:114-123 | An archive with no `data.json` yields no snapshot. |
| ExportImportUtils.DataEntryIsNotMedia | app/src/main/java/com/example/myapplication1/utils/ExportImportUtils.kt:119-137 | `data.json` is never written to a media directory. |
| ExportImportUtils.UnpackAllSnapshot | app/src/main/java/com/example/myapplication1/utils/ExportImportUtils.kt:116-153 | A completed read holds the snapshot of the last `data.json` entry, and a malformed `data.json` anywhere makes the read throw. |
| ExportImportUtils.ImportResult | app/src/main/java/com/example/myapplication1/utils/ExportImportUtils.kt:106-161 | The import gives null when the archive is damaged, any `data.json` is malformed, a media entry cannot be written, or there is no `data.json`; otherwise it gives the last `data.json` snapshot, whatever its version. |
| ExportImportUtils.PreparedExtends | app/src/main/java/com/example/myapplication1/utils/ExportImportUtils.kt:124-127 | Preparing a media target only adds directories. |
| ExportImportUtils.UnpackKeeps | app/src/main/java/com/example/myapplication1/utils/ExportImportUtils.kt:116-153 | An entry that does not target a file leaves that file as it was. |
| ExportImportUtils.MediaLands | app/src/main/java/com/example/myapplication1/utils/ExportImportUtils.kt:124-149 | After a completed read, a media entry's bytes are in its target file, unless a later entry targets the same file. |
| ExportImportUtils.FolderTarget | app/src/main/java/com/example/myapplication1/utils/ExportImportUtils.kt:124-149 | `photos/X` is written to `imagesDir/X` and `audios/X` to `audioDir/X`. |
| ExportImportUtils.TargetInjective | app/src/main/java/com/example/myapplication1/utils/ExportImportUtils.kt:124-149 | Two entry names the import writes to the same file are the same name. |
| ExportImportUtils.ExportedSnapshot | app/src/main/java/com/example/myapplication1/utils/ExportImportUtils.kt:60-66 | The last `data.json` of a completed export is the exported snapshot. |
| ExportImportUtils.ExportThenImport | app/src/main/java/com/example/myapplication1/utils/ExportImportUtils.kt:44-161 | Importing the archive of a completed export gives back, when the import completes, exactly the memories, anniversaries and date exported. |
| ExportImportUtils.ExportThenImportEntry | app/src/main/java/com/example/myapplication1/utils/ExportImportUtils.kt:44-161 | After a completed export and a completed import of its archive, every media entry is in the file the import targets for it, byte for byte. |
| ExportImportUtils.UnpackAllCompletes | app/src/main/java/com/example/myapplication1/utils/ExportImportUtils.kt:116-153 | With the app, images and audio directories in place, reading entries that are each a well-formed `data.json` or a media entry whose file sits directly in its media directory and is not a directory never throws, and leaves every path exactly as much a directory as before. |
| ExportImportUtils.ExportThenImportCompletes | app/src/main/java/com/example/myapplication1/utils/ExportImportUtils.kt:44-161 | Importing the archive of a completed export completes and gives back the memories, anniversaries and date exported, whenever the media directories exist and none of the files the archive targets is a directory. |
| TextExport.InsertPermutes | app/src/main/java/com/example/myapplication1/utils/ExportImportUtils.kt:270-271 | Inserting a memory into the sorted list adds exactly that memory. |
| TextExport.InsertOrdered | app/src/main/java/com/example/myapplication1/utils/ExportImportUtils.kt:270-271 | Inserting into a date-ordered list keeps it date-ordered. |
| TextExport.InsertStable | app/src/main/java/com/example/myapplication1/utils/ExportImportUtils.kt:270-271 | An inserted memory goes after the memories of its date already there. |
| TextExport.SortedByDatePermutes | app/src/main/java/com/example/myapplication1/utils/ExportImportUtils.kt:270-271 | `sortedBy { it.date }` holds the memories given, each as often as given. |
| TextExport.SortedByDateOrdered | app/src/main/java/com/example/myapplication1/utils/ExportImportUtils.kt:270-271 | The sorted memories are in date order, oldest first. |
| TextExport.SortedByDateStable | app/src/main/java/com/example/myapplication1/utils/ExportImportUtils.kt:270-271 | The sort keeps the order of memories sharing a date. |
| TextExport.ChronologicalUnique | app/src/main/java/com/example/myapplication1/utils/ExportImportUtils.kt:270-271 | Two date-ordered lists with the same memories, in the same order on every date, are equal. |
| TextExport.SortedByDateIsTheStableSort | app/src/main/java/com/example/myapplication1/utils/ExportImportUtils.kt:270-271 | The sort's result is date-ordered, a permutation, stable, and the only list with those three properties. |
| TextExport.ReportIgnoresListOrder | app/src/main/java/com/example/myapplication1/utils/ExportImportUtils.kt:239-292 | Two memory lists with the same memories, in the same order on every date, give the same report. |
| TextExport.WriteAnniversary | app/src/main/java/com/example/myapplication1/utils/ExportImportUtils.kt:259-266 | The lines written for one anniversary are its block: title, date, the description when not blank, a blank line. |
| TextExport.WriteAnniversaries | app/src/main/java/com/example/myapplication1/utils/ExportImportUtils.kt:257-268 | The anniversary loop writes the blocks of the anniversaries in the order given. |
| TextExport.WriteMemory | app/src/main/java/com/example/myapplication1/utils/ExportImportUtils.kt:272-283 | The lines written for one memory are its block: title, date, message, the photo count when there are photos, a note when there is a recording, a separator. |
| TextExport.WriteMemories | app/src/main/java/com/example/myapplication1/utils/ExportImportUtils.kt:270-284 | The memory loop writes the blocks of the sorted memories in order. |
| TextExport.WriteReport | app/src/main/java/com/example/myapplication1/utils/ExportImportUtils.kt:253-285 | The writer produces the report: header with today's date, the anniversary section when there are anniversaries, the memory section, sorted, when there are memories. |
| TextExport.ExportToText | app/src/main/java/com/example/myapplication1/utils/ExportImportUtils.kt:239-292 | The exports directory is created when missing; when `memories_text_<millis>.txt` can be created it holds the report and its path is returned, otherwise null. |
| Listing.ChronologicalIsTextOrder | app/src/main/java/com/example/myapplication1/data/MemoryEventDao.kt:8-9 | A list in date order is in the order of the stored date text. |
| Listing.InsertByDate | app/src/main/java/com/example/myapplication1/data/AnniversaryDao.kt:13-14 | Inserting into a date-ordered listing keeps it ordered and adds exactly the new row. |
| Listing.SortByDate | app/src/main/java/com/example/myapplication1/data/MemoryEventDao.kt:8-9 | An `ORDER BY date` listing holds each row exactly once, ordered by the stored date text. |
| Listing.ListAll | app/src/main/java/com/example/myapplication1/data/UserDao.kt:8-9 | A listing without `ORDER BY` holds each row exactly once. |
| MemoryEventDao.InsertSpec | app/src/main/java/com/example/myapplication1/data/MemoryEventDao.kt:14-15 | An insert keeps the table consistent. A completed insert stores the memory under a key no row had: its own id, or the next AUTOINCREMENT key when the id is 0. It changes no other row and returns the key as a `Long`. The row reads back with the memory's id, or with the fresh key truncated to an `Int`. The insert throws and changes nothing exactly when the id is taken (`SQLiteConstraintException`) or no rowid below 2^63 is left (`SQLiteFullException`). |
| MemoryEventDao.KeyPastIntMax | app/src/main/java/com/example/myapplication1/data/MemoryEventDao.kt:14-21 | With `sqlite_sequence` at 2^31−1, a new memory is stored under key 2^31, the insert returns 2^31, and the row reads back with id −2^31; deleting or updating that memory as read back leaves the row in place. |
| MemoryEventDao.DeletedIdNotReused | app/src/main/java/com/example/myapplication1/data/MemoryEventDao.kt:14-21 | After a row is deleted, a new memory never gets its id. |
| MemoryEventDao.UpdateSpec | app/src/main/java/com/example/myapplication1/data/MemoryEventDao.kt:17-18 | An update changes at most the row with the memory's id, to that memory. |
| MemoryEventDao.DeleteSpec | app/src/main/java/com/example/myapplication1/data/MemoryEventDao.kt:20-21 | A delete removes exactly the row with the memory's id; the other fields of the memory passed do not matter. |
| MemoryEventDao.MemoryEventTable.constructor | app/src/main/java/com/example/myapplication1/data/MemoryEventDao.kt:7 | A new table is empty and has handed out no key. |
| MemoryEventDao.MemoryEventTable.GetAllEvents | app/src/main/java/com/example/myapplication1/data/MemoryEventDao.kt:8-9 | Every row once, newest date first. |
| MemoryEventDao.MemoryEventTable.GetEventById | app/src/main/java/com/example/myapplication1/data/MemoryEventDao.kt:11-12 | The row with that id, or null exactly when there is none. |
| MemoryEventDao.MemoryEventTable.InsertEvent | app/src/main/java/com/example/myapplication1/data/MemoryEventDao.kt:14-15 | The table, `sqlite_sequence` and the returned key or error are those of `MemoryEventDao.Insert`. |
| MemoryEventDao.MemoryEventTable.UpdateEvent | app/src/main/java/com/example/myapplication1/data/MemoryEventDao.kt:17-18 | The table becomes `MemoryEventDao.Update` of the old table and `sqlite_sequence` is unchanged. |
| MemoryEventDao.MemoryEventTable.DeleteEvent | app/src/main/java/com/example/myapplication1/data/MemoryEventDao.kt:20-21 | The row with the memory's id goes and `sqlite_sequence` is unchanged. |
| MemoryEventDao.MemoryEventTable.DeleteAllEvents | app/src/main/java/com/example/myapplication1/data/MemoryEventDao.kt:23-24 | All rows go; `sqlite_sequence` keeps its value, so ids are not reused. |
| MemoryEventDao.MemoryEventTable.GetRandomEvent | app/src/main/java/com/example/myapplication1/data/MemoryEventDao.kt:26-27 | Some stored row, and null exactly for an empty table. |
| AnniversaryDao.InsertSpec | app/src/main/java/com/example/myapplication1/data/AnniversaryDao.kt:19-20 | A REPLACE insert throws `SQLiteFullException`, changing nothing, exactly when a fresh key is needed and no rowid below 2^63 is left. Otherwise it stores the anniversary under its own id, replacing any row there. An id of 0 instead takes the next AUTOINCREMENT key, and the row reads back with that key truncated to an `Int`. No other row changes. |
| AnniversaryDao.ReplaceThenUpdate | app/src/main/java/com/example/myapplication1/data/AnniversaryDao.kt:19-23 | Updating right after a REPLACE insert of an anniversary with an id changes nothing more. |
| AnniversaryDao.AnniversaryTable.constructor | app/src/main/java/com/example/myapplication1/data/AnniversaryDao.kt:12 | A new table is empty and has handed out no key. |
| AnniversaryDao.AnniversaryTable.GetAllAnniversaries | app/src/main/java/com/example/myapplication1/data/AnniversaryDao.kt:13-14 | Every row once, earliest date first. |
| AnniversaryDao.AnniversaryTable.GetAnniversaryById | app/src/main/java/com/example/myapplication1/data/AnniversaryDao.kt:16-17 | The row with that id, or null exactly when there is none. |
| AnniversaryDao.AnniversaryTable.InsertAnniversary | app/src/main/java/com/example/myapplication1/data/AnniversaryDao.kt:19-20 | The table, `sqlite_sequence` and the error are those of `AnniversaryDao.Insert`. |
| AnniversaryDao.AnniversaryTable.UpdateAnniversary | app/src/main/java/com/example/myapplication1/data/AnniversaryDao.kt:22-23 | The row with the same id is replaced; no row, no change. |
| AnniversaryDao.AnniversaryTable.DeleteAnniversary | app/src/main/java/com/example/myapplication1/data/AnniversaryDao.kt:25-26 | Only the id of the anniversary passed matters: that row goes. |
| AnniversaryDao.AnniversaryTable.DeleteAnniversaryById | app/src/main/java/com/example/myapplication1/data/AnniversaryDao.kt:28-29 | The row with that id goes. |
| UserDao.InsertSpec | app/src/main/java/com/example/myapplication1/data/UserDao.kt:17-18 | A REPLACE insert stores the user under its id and leaves every other row as it was. |
| UserDao.SwitchCurrentUser | app/src/main/java/com/example/myapplication1/data/UserDao.kt:26-30 | Clearing then setting keeps the same users with the same fields and leaves exactly the named user, if it exists, current. |
| UserDao.SetWithoutClear | app/src/main/java/com/example/myapplication1/data/UserDao.kt:29-30 | Setting without clearing first leaves two current users when another was current. |
| UserDao.UserTable.constructor | app/src/main/java/com/example/myapplication1/data/UserDao.kt:7 | A new table is empty. |
| UserDao.UserTable.GetAllUsers | app/src/main/java/com/example/myapplication1/data/UserDao.kt:8-9 | Every row once. |
| UserDao.UserTable.GetCurrentUser | app/src/main/java/com/example/myapplication1/data/UserDao.kt:11-12 | Some current user, and null exactly when no user is current. |
| UserDao.UserTable.GetUserById | app/src/main/java/com/example/myapplication1/data/UserDao.kt:14-15 | The user with that id, or null exactly when there is none. |
| UserDao.UserTable.InsertUser | app/src/main/java/com/example/myapplication1/data/UserDao.kt:17-18 | The table after a REPLACE insert. |
| UserDao.UserTable.UpdateUser | app/src/main/java/com/example/myapplication1/data/UserDao.kt:20-21 | The row with the same id is replaced; no row, no change. |
| UserDao.UserTable.DeleteUser | app/src/main/java/com/example/myapplication1/data/UserDao.kt:23-24 | The row with the same id goes. |
| UserDao.UserTable.ClearCurrentUser | app/src/main/java/com/example/myapplication1/data/UserDao.kt:26-27 | No user is current afterwards, and nothing else changes. |
| UserDao.UserTable.SetCurrentUser | app/src/main/java/com/example/myapplication1/data/UserDao.kt:29-30 | The named user is marked current; other flags are kept. |
| SharedMemoryDao.DeleteForEventSpec | app/src/main/java/com/example/myapplication1/data/UserDao.kt:47-48 | After deleting a memory's shares none is left for it, other memories' shares stay, and exactly the rows its listing showed went. |
| SharedMemoryDao.InsertListed | app/src/main/java/com/example/myapplication1/data/UserDao.kt:41-42 | An inserted share shows in the listings of its memory and of both users, and replaces the row with its id. |
| SharedMemoryDao.SharedMemoryTable.constructor | app/src/main/java/com/example/myapplication1/data/UserDao.kt:34 | A new table is empty. |
| SharedMemoryDao.SharedMemoryTable.GetSharedMemoriesForEvent | app/src/main/java/com/example/myapplication1/data/UserDao.kt:35-36 | Exactly the shares of that memory, each once. |
| SharedMemoryDao.SharedMemoryTable.GetSharedMemoriesForUser | app/src/main/java/com/example/myapplication1/data/UserDao.kt:38-39 | Exactly the shares the user received or made, each once. |
| SharedMemoryDao.SharedMemoryTable.InsertSharedMemory | app/src/main/java/com/example/myapplication1/data/UserDao.kt:41-42 | The table after a REPLACE insert. |
| SharedMemoryDao.SharedMemoryTable.DeleteSharedMemory | app/src/main/java/com/example/myapplication1/data/UserDao.kt:44-45 | The row with the same id goes. |
| SharedMemoryDao.SharedMemoryTable.DeleteSharedMemoriesForEvent | app/src/main/java/com/example/myapplication1/data/UserDao.kt:47-48 | Every share of that memory goes. |
| MemoryViewModel.DeletedShrinks | app/src/main/java/com/example/myapplication1/utils/FileUtils.kt:62-73 | A single delete only removes, and removes the file it is given. |
| MemoryViewModel.DeletedAllSpec | app/src/main/java/com/example/myapplication1/viewmodel/MemoryViewModel.kt:43-45 | Deleting a list of paths removes each that was a file, keeps every path not in the list, and changes no content. |
| MemoryViewModel.DeletedMediaSpec | app/src/main/java/com/example/myapplication1/viewmodel/MemoryViewModel.kt:40-49 | Deleting a memory's media removes each of its files and keeps every other path and all content. |
| MemoryViewModel.ClearedMediaSpec | app/src/main/java/com/example/myapplication1/viewmodel/MemoryViewModel.kt:101-112 | Clearing the media of a list of memories removes every file any of them refers to and keeps every other path and all content. |
| MemoryViewModel.MediaOfAllMembers | app/src/main/java/com/example/myapplication1/viewmodel/MemoryViewModel.kt:104-109 | A path is media of the list exactly when it is media of one of its memories. |
| MemoryViewModel.DeleteMediaOf | app/src/main/java/com/example/myapplication1/viewmodel/MemoryViewModel.kt:43-46 | The photo loop and the recording delete leave the file system `DeletedMedia` gives. |
| MemoryViewModel.DeleteMediaOfAll | app/src/main/java/com/example/myapplication1/viewmodel/MemoryViewModel.kt:104-109 | The file loop over every memory leaves the file system `ClearedMedia` gives. |
| MemoryViewModel.MemoryViewModel.constructor | app/src/main/java/com/example/myapplication1/viewmodel/MemoryViewModel.kt:120-128 | A fresh view model has the default state and no current memory. |
| MemoryViewModel.MemoryViewModel.InsertEvent | app/src/main/java/com/example/myapplication1/viewmodel/MemoryViewModel.kt:28-32 | The table after the insert. The insert's exception, if any, is reported as uncaught: `viewModelScope.launch` has no handler, so it ends the app's process. |
| MemoryViewModel.MemoryViewModel.UpdateEvent | app/src/main/java/com/example/myapplication1/viewmodel/MemoryViewModel.kt:34-38 | The table after the update. |
| MemoryViewModel.MemoryViewModel.DeleteEvent | app/src/main/java/com/example/myapplication1/viewmodel/MemoryViewModel.kt:40-49 | The memory's files go first, then its row; `sqlite_sequence` is unchanged, so the id is not handed out again. |
| MemoryViewModel.MemoryViewModel.GetEventById | app/src/main/java/com/example/myapplication1/viewmodel/MemoryViewModel.kt:51-55 | The current memory becomes the row with that id, or null when there is none; the UI state, the table and the files are unchanged. |
| MemoryViewModel.MemoryViewModel.GetRandomEvent | app/src/main/java/com/example/myapplication1/viewmodel/MemoryViewModel.kt:57-63 | The current memory becomes a stored row, null exactly for an empty table, and the dialog shows exactly when one was drawn. |
| MemoryViewModel.MemoryViewModel.StartRecording | app/src/main/java/com/example/myapplication1/viewmodel/MemoryViewModel.kt:65-71 | Recording is on and the path held exactly when the recorder started. |
| MemoryViewModel.MemoryViewModel.StopRecording | app/src/main/java/com/example/myapplication1/viewmodel/MemoryViewModel.kt:73-79 | Recording is off and no path is held. |
| MemoryViewModel.MemoryViewModel.PlayAudio | app/src/main/java/com/example/myapplication1/viewmodel/MemoryViewModel.kt:81-82 | Playing is on; nothing else changes. |
| MemoryViewModel.MemoryViewModel.PlaybackCompleted | app/src/main/java/com/example/myapplication1/viewmodel/MemoryViewModel.kt:83-85 | The completion callback turns playing off; nothing else changes. |
| MemoryViewModel.MemoryViewModel.StopAudio | app/src/main/java/com/example/myapplication1/viewmodel/MemoryViewModel.kt:88-91 | Playing is off; nothing else changes. |
| MemoryViewModel.MemoryViewModel.UpdateEditingEvent | app/src/main/java/com/example/myapplication1/viewmodel/MemoryViewModel.kt:93-95 | Only the editing memory changes. |
| MemoryViewModel.MemoryViewModel.HideRandomEvent | app/src/main/java/com/example/myapplication1/viewmodel/MemoryViewModel.kt:97-99 | Only the random-memory dialog flag changes, to hidden. |
| MemoryViewModel.MemoryViewModel.ClearAllData | app/src/main/java/com/example/myapplication1/viewmodel/MemoryViewModel.kt:101-112 | Every file a stored memory refers to is deleted, nothing else on disk changes, and the table is emptied without resetting `sqlite_sequence`. |
| AnniversaryViewModel.DaysSince | app/src/main/java/com/example/myapplication1/viewmodel/AnniversaryViewModel.kt:58-60 | Positive exactly for a past date, zero exactly for today, negative exactly for a future date. |
| AnniversaryViewModel.DaysUntil | app/src/main/java/com/example/myapplication1/viewmodel/AnniversaryViewModel.kt:62-64 | The negation of the days since, positive exactly for a future date. |
| AnniversaryViewModel.NextDayShiftsCounts | app/src/main/java/com/example/myapplication1/viewmodel/AnniversaryViewModel.kt:58-64 | Each day that passes adds one to the days since and takes one from the days until. |
| AnniversaryViewModel.AnniversaryViewModel.constructor | app/src/main/java/com/example/myapplication1/viewmodel/AnniversaryViewModel.kt:67-71 | A fresh view model has the default state and no current anniversary. |
| AnniversaryViewModel.AnniversaryViewModel.InsertAnniversary | app/src/main/java/com/example/myapplication1/viewmodel/AnniversaryViewModel.kt:30-34 | The table after a REPLACE insert. The insert's exception, if any, is reported as uncaught and ends the app's process. |
| AnniversaryViewModel.AnniversaryViewModel.UpdateAnniversary | app/src/main/java/com/example/myapplication1/viewmodel/AnniversaryViewModel.kt:36-40 | The table after the update. |
| AnniversaryViewModel.AnniversaryViewModel.DeleteAnniversary | app/src/main/java/com/example/myapplication1/viewmodel/AnniversaryViewModel.kt:42-46 | The row with the anniversary's id goes. |
| AnniversaryViewModel.AnniversaryViewModel.GetAnniversaryById | app/src/main/java/com/example/myapplication1/viewmodel/AnniversaryViewModel.kt:48-52 | The current anniversary becomes the row with that id, or null when there is none. |
| AnniversaryViewModel.AnniversaryViewModel.UpdateEditingAnniversary | app/src/main/java/com/example/myapplication1/viewmodel/AnniversaryViewModel.kt:54-56 | Only the editing anniversary changes. |
| UserViewModel.DefaultUser | app/src/main/java/com/example/myapplication1/viewmodel/UserViewModel.kt:26-30 | The default user is named "我", under the given id, and is current. |
| UserViewModel.FreshInstallHasNoCurrentUser | app/src/main/java/com/example/myapplication1/viewmodel/UserViewModel.kt:21-34 | As written, a fresh install keeps an empty user table and no current user. |
| UserViewModel.InitializedIntendedSpec | app/src/main/java/com/example/myapplication1/viewmodel/UserViewModel.kt:21-34 | As intended, afterwards some user is current; a table with a current user is left alone, otherwise the default user is added as current. |
| UserViewModel.AddUserKeepsCurrent | app/src/main/java/com/example/myapplication1/viewmodel/UserViewModel.kt:36-45 | Adding a user under a fresh id shows the new user, not current, and leaves who is current unchanged. |
| UserViewModel.UserViewModel.constructor | app/src/main/java/com/example/myapplication1/viewmodel/UserViewModel.kt:17-19 | The view model works on the given user table. |
| UserViewModel.UserViewModel.InitializeDefaultUsers | app/src/main/java/com/example/myapplication1/viewmodel/UserViewModel.kt:21-34 | The user table after the as-written initialisation, which never inserts. |
| UserViewModel.UserViewModel.AddUser | app/src/main/java/com/example/myapplication1/viewmodel/UserViewModel.kt:36-45 | A new user, not current, is inserted under the fresh id. |
| UserViewModel.UserViewModel.UpdateUser | app/src/main/java/com/example/myapplication1/viewmodel/UserViewModel.kt:47-51 | The table after the update. |
| UserViewModel.UserViewModel.DeleteUser | app/src/main/java/com/example/myapplication1/viewmodel/UserViewModel.kt:53-57 | The table after the delete. |
| UserViewModel.UserViewModel.SetCurrentUser | app/src/main/java/com/example/myapplication1/viewmodel/UserViewModel.kt:59-64 | Clear then set: exactly the named user, if it exists, is current afterwards. |
| HomeScreen.Remapped | app/src/main/java/com/example/myapplication1/ui/screens/HomeScreen.kt:65-81 | The rewrite keeps the number of photos and whether there is a recording, and changes nothing but the two path fields. |
| HomeScreen.RemappedAll | app/src/main/java/com/example/myapplication1/ui/screens/HomeScreen.kt:65-84 | One rewritten memory per imported memory. |
| HomeScreen.RemapPathKeepsName | app/src/main/java/com/example/myapplication1/ui/screens/HomeScreen.kt:67-76 | A rewritten path keeps its file name and lands directly in the target directory. |
| HomeScreen.RemapKeepsNames | app/src/main/java/com/example/myapplication1/ui/screens/HomeScreen.kt:65-81 | Every rewritten photo and recording keeps its name and lands in its media directory; the photo order is kept. |
| HomeScreen.RemapIdempotent | app/src/main/java/com/example/myapplication1/ui/screens/HomeScreen.kt:65-81 | Rewriting an already rewritten memory changes nothing. |
| HomeScreen.RemapMatchesImport | app/src/main/java/com/example/myapplication1/ui/screens/HomeScreen.kt:62-81 | The rewritten paths are the files the import wrote the archived photos and recording to. |
| HomeScreen.InsertedAll | app/src/main/java/com/example/myapplication1/ui/screens/HomeScreen.kt:65-84 | Inserting the memories one by one keeps the table consistent. The first insert that throws ends the process, and its exception is the uncaught one. |
| HomeScreen.FreshMemoriesAllAdded | app/src/main/java/com/example/myapplication1/ui/screens/HomeScreen.kt:65-84 | Memories archived with id 0 are all added, under the next keys in archive order, and no existing row changes. |
| HomeScreen.DiedStaysDead | app/src/main/java/com/example/myapplication1/ui/screens/HomeScreen.kt:65-84 | Once an insert has thrown, the memories after it change nothing. |
| HomeScreen.KnownIdsAllConflict | app/src/main/java/com/example/myapplication1/ui/screens/HomeScreen.kt:65-84 | Re-importing a backup whose first memory's archived id is already stored ends the app's process on the first insert. The exception is `SQLiteConstraintException`, and the table is unchanged. |
| HomeScreen.MenuFor | app/src/main/java/com/example/myapplication1/ui/screens/HomeScreen.kt:171-247 | Import is disabled while an import runs; export and share are enabled together; the text export is enabled whenever export is. |
| HomeScreen.MenuEnablement | app/src/main/java/com/example/myapplication1/ui/screens/HomeScreen.kt:192-247 | Export and share are enabled exactly when no export runs and there is a memory; import exactly when neither an export nor an import runs; the text export exactly when there is a memory. |
| HomeScreen.ExportDuringImport | app/src/main/java/com/example/myapplication1/ui/screens/HomeScreen.kt:192-227 | An export can start while an import runs, though a second import cannot. |
| HomeScreen.AppArchivesHaveNoAnniversaries | app/src/main/java/com/example/myapplication1/ui/screens/HomeScreen.kt:171-192 | An archive made from the home screen reads back with an empty anniversary list. |
| HomeScreen.TextReportHasNoAnniversaries | app/src/main/java/com/example/myapplication1/ui/screens/HomeScreen.kt:229-247 | The home screen's text report has no anniversary section. |
| HomeScreen.HomeScreen.constructor | app/src/main/java/com/example/myapplication1/ui/screens/HomeScreen.kt:51-52 | Neither an export nor an import is running at first. |
| HomeScreen.HomeScreen.InsertRemapped | app/src/main/java/com/example/myapplication1/ui/screens/HomeScreen.kt:65-84 | The `forEach` inserts each rewritten memory in order, until an insert's exception ends the process. |
| HomeScreen.HomeScreen.OnImportPicked | app/src/main/java/com/example/myapplication1/ui/screens/HomeScreen.kt:55-103 | No pick changes nothing, `sqlite_sequence` included. Otherwise the import runs, and a success inserts the rewritten memories. The toast reports success, failure or the caught exception. An insert's exception is not caught by the callback: it is reported as uncaught, ending the process. The import flag ends cleared. |
| HomeScreen.HomeScreen.OnExportBackup | app/src/main/java/com/example/myapplication1/ui/screens/HomeScreen.kt:171-192 | The listed memories and no anniversaries are exported, and the export flag ends cleared. |
| HomeScreen.HomeScreen.OnExportText | app/src/main/java/com/example/myapplication1/ui/screens/HomeScreen.kt:229-247 | The listed memories and no anniversaries are written as the text report. |
| AddEditEventScreen.RemoveFirstSpec | app/src/main/java/com/example/myapplication1/ui/screens/AddEditEventScreen.kt:306-313 | `list - x` leaves a list without x unchanged and otherwise cuts out exactly its first occurrence. |
| AddEditEventScreen.RemoveFirstMultiset | app/src/main/java/com/example/myapplication1/ui/screens/AddEditEventScreen.kt:306-313 | `list - x` removes one copy of x. |
| AddEditEventScreen.SaveOne | app/src/main/java/com/example/myapplication1/ui/screens/AddEditEventScreen.kt:97-99 | An image is taken only when it decoded, and then nothing was thrown. |
| AddEditEventScreen.SaveFrom | app/src/main/java/com/example/myapplication1/ui/screens/AddEditEventScreen.kt:97-99 | The saved images are among the picks from that point on, and distinct clock readings give distinct saved images. |
| AddEditEventScreen.SavedPaths | app/src/main/java/com/example/myapplication1/ui/screens/AddEditEventScreen.kt:97-100 | Each saved reading gives the path of its image, in order. |
| AddEditEventScreen.SavedPathsDistinct | app/src/main/java/com/example/myapplication1/ui/screens/AddEditEventScreen.kt:97-100 | While the clock moves between two images, no two saved images share a file. |
| AddEditEventScreen.BuiltEvent | app/src/main/java/com/example/myapplication1/ui/screens/AddEditEventScreen.kt:102-118 | The memory holds the form's fields; an edit keeps the edited memory's id and creation time, and a new memory has id 0 and is created now. |
| AddEditEventScreen.EditReplacesRow | app/src/main/java/com/example/myapplication1/ui/screens/AddEditEventScreen.kt:102-124 | Saving an edit replaces the stored row with the form's contents, keeps its creation time, and touches no other row. |
| AddEditEventScreen.SaveImages | app/src/main/java/com/example/myapplication1/ui/screens/AddEditEventScreen.kt:97-99 | The `mapNotNull` loop leaves the file system `SaveAll` gives, and without an exception returns the saved paths. |
| AddEditEventScreen.EventForm.constructor | app/src/main/java/com/example/myapplication1/ui/screens/AddEditEventScreen.kt:59-64 | The form opens on the edited memory's fields, or empty on today, with no picks. |
| AddEditEventScreen.EventForm.Save | app/src/main/java/com/example/myapplication1/ui/screens/AddEditEventScreen.kt:91-131 | A blank title or message does nothing. Otherwise the picks are saved and appended to the stored paths, and the memory is updated or inserted. An exception while saving leaves the table unchanged. The insert's own exception is uncaught and ends the process. |
| AddEditEventScreen.EventForm.PickImages | app/src/main/java/com/example/myapplication1/ui/screens/AddEditEventScreen.kt:81-85 | The picker's result replaces the earlier picks; the stored paths, title, message, date and recording are unchanged. |
| AddEditEventScreen.EventForm.RemoveThumbnail | app/src/main/java/com/example/myapplication1/ui/screens/AddEditEventScreen.kt:306-313 | A stored path is removed from the stored paths, otherwise the pick with that string; exactly one copy leaves the grid. Title, message, date and recording are unchanged. |
| AddEditEventScreen.EventForm.ClearPhotos | app/src/main/java/com/example/myapplication1/ui/screens/AddEditEventScreen.kt:345-350 | The grid is empty afterwards; no file is deleted, and title, message, date and recording are unchanged. |
| AddEditEventScreen.EventForm.ToggleRecording | app/src/main/java/com/example/myapplication1/ui/screens/AddEditEventScreen.kt:386-401 | Without permission nothing changes; a running recording stops and its path becomes the form's; otherwise a recording starts into a new `audio_<millis>.3gp` in the audio directory, only the recording flag and path of the UI state changing. Title, message, date and both image lists are unchanged. |
| AddEditEventScreen.EventForm.DeleteAudio | app/src/main/java/com/example/myapplication1/ui/screens/AddEditEventScreen.kt:445-449 | The recording's file goes and the form forgets it; title, message, date and both image lists are unchanged. |
| AnniversaryScreen.DaysLabel | app/src/main/java/com/example/myapplication1/ui/screens/AnniversaryScreen.kt:269-285 | A non-negative count shows "已经过去 …", a negative one "还有 …". |
| AnniversaryScreen.LabelHead | app/src/main/java/com/example/myapplication1/ui/screens/AnniversaryScreen.kt:269-285 | The first character tells a past count from a future one. |
| AnniversaryScreen.DaysLabelInjective | app/src/main/java/com/example/myapplication1/ui/screens/AnniversaryScreen.kt:269-285 | Different counts never show the same label. |
| AnniversaryScreen.CardLabel | app/src/main/java/com/example/myapplication1/ui/screens/AnniversaryScreen.kt:108 | A future date shows the days until it, today or a past date the days since; today shows "已经过去 0 天". |
| AnniversaryScreen.InitialForm | app/src/main/java/com/example/myapplication1/ui/screens/AnniversaryScreen.kt:298-301 | The dialog opens on the edited anniversary's fields, or empty on today and not important. |
| AnniversaryScreen.Confirmed | app/src/main/java/com/example/myapplication1/ui/screens/AnniversaryScreen.kt:358-371 | Confirming gives an anniversary exactly when the name is not blank, with the dialog's fields, the edited id or 0, created now. |
| AnniversaryScreen.UntouchedEditResetsCreation | app/src/main/java/com/example/myapplication1/ui/screens/AnniversaryScreen.kt:358-371 | Confirming an untouched edit gives back the same anniversary except for its creation time. |
| AnniversaryScreen.EditReplacesRow | app/src/main/java/com/example/myapplication1/ui/screens/AnniversaryScreen.kt:145-150 | A confirmed edit replaces the row under the edited id and keeps every other row. |
| AnniversaryScreen.AnniversaryScreen.constructor | app/src/main/java/com/example/myapplication1/ui/screens/AnniversaryScreen.kt:36-39 | No dialog is open and nothing is selected at first. |
| AnniversaryScreen.AnniversaryScreen.OnAddClick | app/src/main/java/com/example/myapplication1/ui/screens/AnniversaryScreen.kt:36 | The add dialog opens. |
| AnniversaryScreen.AnniversaryScreen.OnEditClick | app/src/main/java/com/example/myapplication1/ui/screens/AnniversaryScreen.kt:109-113 | The anniversary is selected, marked as being edited, and the edit dialog opens; the other dialogs and the view model's current anniversary are unchanged. |
| AnniversaryScreen.AnniversaryScreen.OnDeleteClick | app/src/main/java/com/example/myapplication1/ui/screens/AnniversaryScreen.kt:114-117 | The anniversary is selected and the delete confirmation opens. |
| AnniversaryScreen.AnniversaryScreen.ConfirmAdd | app/src/main/java/com/example/myapplication1/ui/screens/AnniversaryScreen.kt:125-133 | A valid form is inserted as a new anniversary and the dialog closes; the insert's exception, if any, is uncaught. A blank name does nothing. The selection and the other dialogs are unchanged. |
| AnniversaryScreen.AnniversaryScreen.DismissAdd | app/src/main/java/com/example/myapplication1/ui/screens/AnniversaryScreen.kt:128 | The add dialog closes; the selection and the other dialogs are unchanged. |
| AnniversaryScreen.AnniversaryScreen.ConfirmEdit | app/src/main/java/com/example/myapplication1/ui/screens/AnniversaryScreen.kt:145-150 | A valid form updates the selected anniversary's row and clears the dialog, the selection and the editing state; a blank name does nothing. The other dialogs and the current anniversary are unchanged. |
| AnniversaryScreen.AnniversaryScreen.DismissEdit | app/src/main/java/com/example/myapplication1/ui/screens/AnniversaryScreen.kt:140-144 | The dialog, the selection and the editing state are cleared; the other dialogs and the current anniversary are unchanged. |
| AnniversaryScreen.AnniversaryScreen.ConfirmDelete | app/src/main/java/com/example/myapplication1/ui/screens/AnniversaryScreen.kt:165-168 | The selected anniversary's row goes and the confirmation closes; the other dialogs are unchanged. |
| AnniversaryScreen.AnniversaryScreen.DismissDelete | app/src/main/java/com/example/myapplication1/ui/screens/AnniversaryScreen.kt:157-159 | The confirmation closes and the selection is cleared; the other dialogs are unchanged. |

## Left out

- Compose rendering, navigation, toasts' display, snackbars and the permission dialog itself are left out. Only the state changes behind the buttons and the enablement rules are modelled.
- Coroutines (`viewModelScope.launch`, `withContext(Dispatchers.IO)`) are modelled as running to completion, one at a time. Races between an export and an import are not modelled.
- `shareBackupFile` (the share intent) is not modelled. The "share backup" item is modelled only through the export it runs, `HomeScreen.HomeScreen.OnExportBackup`.
- Gson's pretty printer and its lenient reader, plus UTF-8, sit between a JSON tree and the bytes of `data.json`. They are the `TextCodec` parameter, assumed faithful where a round trip is claimed.
- The JSON text of the photo-list column is modelled: Gson's compact writer, with HTML-safe escapes, and its reader for arrays of strings. Gson's handling of non-string array items and of JSON numbers beyond what the records hold is not modelled.
- ZIP is not modelled at the byte level: compression, CRCs, the central directory and `ZipException` causes other than a repeated entry name. A damaged archive is a flag on the stream.
- `File` paths are not normalised: no `..`, no `.`, no repeated separators, no symbolic links.
- `mkdirs` on a blocked path is modelled. Failures from permissions or a full disk are not.
- `FileOutputStream` fails only where the path is a directory or has no parent directory.
- Clock readings (`System.currentTimeMillis()`, `LocalDate.now()`) and `UUID.randomUUID()` are parameters.
- Dates: only years 0000-9999 are modelled, the four-digit years that `LocalDate.toString()` writes without a sign. Outside that range `LocalDate` uses another text form.
- HomeScreen.HomeScreen.OnImportPicked: the source's rewrite calls `getImagesDirectory` and `getAudioDirectory` once per path, which may create those directories. The model takes the directory paths without that side effect. The import that precedes the rewrite has already created the directories for every media entry it wrote.
- HomeScreen.HomeScreen.OnImportPicked: the `catch` around the inserts can only take an exception raised in the callback's own coroutine. The model has one such exception: a snapshot whose `memories` is null. An insert's exception is raised in the view model's coroutine and is reported as uncaught.
- AddEditEventScreen.EventForm.Save: what the content resolver yields for each picked URI (`sources`) and the clock reading while each image is saved (`readings`) are parameters. Two images saved in the same millisecond get the same file, and the later one overwrites the earlier. `AddEditEventScreen.SavedPathsDistinct` states the condition under which that cannot happen.
- AddEditEventScreen.EventForm.Save: `onNavigateBack()` is the `saved` result.
- The audio recorder and player (`AudioManager`) are left out. Whether recording started is a parameter, and playback completion is a method, `MemoryViewModel.MemoryViewModel.PlaybackCompleted`.
- Room's `Flow` queries are modelled as one-shot reads of the current rows. Re-emission on change is not modelled.
- HomeScreen.InsertedAll: each insert is launched in its own coroutine, and the loop goes on launching. Inserts launched after a throwing one may still reach the table before the process ends, depending on scheduling. The model stops at the first exception, and reports the success toast as shown.
- ExportImportUtils.ImportResult: `data.json` is decoded strictly. A memory or anniversary whose `title`, `message`, `description`, `date` or `photoPaths` is missing or JSON `null`, or whose photo list holds a `null`, is treated as malformed, and so the import returns null. Gson instead builds the object with that field left null. Its lenient reader also reads a number where a string is expected as the number's text. Such records would need nullable fields, and the null dereferences they later cause in the home screen's rewrite would need modelling too. Both are left out.
- ExportImportUtils.ReadArchive: inherits the strict decoding of `data.json` described under `ExportImportUtils.ImportResult`.
- ExportImportUtils.ImportMemoriesFromUri: inherits the strict decoding of `data.json` described under `ExportImportUtils.ImportResult`.
- ExportImportUtils.ImportMemoriesFromFile: inherits the strict decoding of `data.json` described under `ExportImportUtils.ImportResult`.
- Converters.ToStringList: a lone `\u` surrogate escape, which Gson reads as an unpaired UTF-16 unit, is treated as malformed, because a Dafny string cannot hold it. A complete surrogate pair is decoded. Gson's lenient reader also accepts single-quoted and unquoted strings and the `\'` and backslash-newline escapes; the model rejects them as malformed. The app only ever reads text its own writer produced, which uses none of them.
- Files.FileSystem.Read: an export document (a `ZipFile` or `TextFile` node) reads as failing, where `inputStream()` would give its bytes, because the model does not encode those nodes as bytes. Media paths are files the app itself saved under its images and audio directories, so they never name an export document.
- ExportImportUtils.AddMedia: a media path that names an export document fails the export as an unreadable file, for the reason given under `Files.FileSystem.Read`.
- Some behaviour of the backup code differs from what a reader might expect. The model follows the code:
  - Duplicate media file names in an export: `putNextEntry` throws on the second name, so the export returns null rather than keeping the last file.
  - A failed export leaves its partial archive on disk.
  - A media entry that cannot be written is not skipped: the write throws and the import returns null.
  - The import never reads `version`, so a missing or unknown version is accepted.
  - Imported memories keep their archived ids rather than being added as new records. On the device that made the backup, the first insert therefore throws and ends the app's process (`HomeScreen.KnownIdsAllConflict`).

## Findings

| source | as written | input that shows it | evidently intended | confidence | as-written member | corrected member |
|---|---|---|---|---|---|---|
| app/src/main/java/com/example/myapplication1/viewmodel/UserViewModel.kt:21-34 | `getCurrentUser()` returns a `Flow`, which is never null, so the null test always fails and no default user is ever inserted | a fresh install, with an empty `users` table | insert a current default user named "我" when no user is current | not executed | UserViewModel.FreshInstallHasNoCurrentUser | UserViewModel.InitializedIntendedSpec |
