/** The `data.json` entry of a backup: `ExportData` and how Gson, with the
    ISO date adapters of `ExportImportUtils`, maps it to a JSON tree and
    back. The step between the tree and the entry's bytes (pretty printing,
    lenient parsing, UTF-8) is a parameter, `TextCodec`. */
module Snapshot {
  import opened Wrappers
  import opened Dates
  import opened Records
  import opened Zip

  datatype Json =
    | JNull
    | JBool(b: bool)
    | JNum(n: int)
    | JStr(s: string)
    | JArr(items: seq<Json>)
    | JObj(members: seq<Member>)

  datatype Member = Member(name: string, value: Json)

  /** `ExportData`. Gson builds it without running the Kotlin constructor,
      so a list or string missing from the document is `null` (`None`). */
  datatype ExportData = ExportData(
    memories: Option<seq<MemoryEvent>>,
    anniversaries: Option<seq<Anniversary>>,
    exportDate: Option<string>,
    version: Option<string>)

  const VERSION := "1.0"

  /** `ExportData(memories, anniversaries)` on day `today`: the export date
      is today's ISO date and the version is "1.0". */
  function NewExportData(memories: seq<MemoryEvent>, anniversaries: seq<Anniversary>, today: CalendarDate): (d: ExportData)
    ensures d.memories == Some(memories) && d.anniversaries == Some(anniversaries)
    ensures d.exportDate.Some? && Parse(d.exportDate.value) == Some(today)
    ensures d.version == Some(VERSION)
  {
    ParseFormat(today);
    ExportData(Some(memories), Some(anniversaries), Some(Format(today)), Some(VERSION))
  }

  // ---------------------------------------------------------------------
  // Writing: fields in declaration order, null fields left out

  function Strings(xs: seq<string>): seq<Json> {
    if xs == [] then [] else [JStr(xs[0])] + Strings(xs[1..])
  }

  /** The members of a memory's object; `audioPath` is left out when it is
      null. */
  function EventMembers(e: MemoryEvent): seq<Member> {
    if e.audioPath.Some? then
      [Member("id", JNum(e.id)), Member("title", JStr(e.title)), Member("date", JStr(Format(e.date))),
       Member("message", JStr(e.message)), Member("photoPaths", JArr(Strings(e.photoPaths))),
       Member("audioPath", JStr(e.audioPath.value)), Member("createdAt", JNum(e.createdAt))]
    else
      [Member("id", JNum(e.id)), Member("title", JStr(e.title)), Member("date", JStr(Format(e.date))),
       Member("message", JStr(e.message)), Member("photoPaths", JArr(Strings(e.photoPaths))),
       Member("createdAt", JNum(e.createdAt))]
  }

  function EventJson(e: MemoryEvent): Json {
    JObj(EventMembers(e))
  }

  function AnniversaryJson(a: Anniversary): Json {
    JObj([Member("id", JNum(a.id)), Member("title", JStr(a.title)), Member("date", JStr(Format(a.date))),
          Member("description", JStr(a.description)), Member("isImportant", JBool(a.isImportant)),
          Member("createdAt", JNum(a.createdAt))])
  }

  function EventsJson(es: seq<MemoryEvent>): seq<Json> {
    if es == [] then [] else [EventJson(es[0])] + EventsJson(es[1..])
  }

  function AnniversariesJson(as_: seq<Anniversary>): seq<Json> {
    if as_ == [] then [] else [AnniversaryJson(as_[0])] + AnniversariesJson(as_[1..])
  }

  function Optional(name: string, value: Option<Json>): seq<Member> {
    if value.Some? then [Member(name, value.value)] else []
  }

  /** `gson.toJson(exportData)` as a tree. */
  function ToJson(d: ExportData): Json {
    JObj(Optional("memories", if d.memories.Some? then Some(JArr(EventsJson(d.memories.value))) else None)
       + Optional("anniversaries", if d.anniversaries.Some? then Some(JArr(AnniversariesJson(d.anniversaries.value))) else None)
       + Optional("exportDate", if d.exportDate.Some? then Some(JStr(d.exportDate.value)) else None)
       + Optional("version", if d.version.Some? then Some(JStr(d.version.value)) else None))
  }

  // ---------------------------------------------------------------------
  // Reading: the last member of a name wins, unknown names are skipped

  function Lookup(members: seq<Member>, name: string): Option<Json> {
    if members == [] then None
    else if members[|members| - 1].name == name then Some(members[|members| - 1].value)
    else Lookup(members[..|members| - 1], name)
  }

  /** A member that is absent or `null` leaves a primitive at its default
      (`None` here means malformed). */
  function IntMember(members: seq<Member>, name: string, lo: int, hi: int): (r: Option<int>)
    ensures r.Some? ==> lo <= r.value < hi || r.value == 0
  {
    match Lookup(members, name)
    case None => Some(0)
    case Some(JNull) => Some(0)
    case Some(JNum(n)) => if lo <= n < hi then Some(n) else None
    case Some(_) => None
  }

  function BoolMember(members: seq<Member>, name: string): Option<bool> {
    match Lookup(members, name)
    case None => Some(false)
    case Some(JNull) => Some(false)
    case Some(JBool(b)) => Some(b)
    case Some(_) => None
  }

  function StringMember(members: seq<Member>, name: string): Option<string> {
    match Lookup(members, name)
    case Some(JStr(s)) => Some(s)
    case _ => None
  }

  function NullableStringMember(members: seq<Member>, name: string): Option<Option<string>> {
    match Lookup(members, name)
    case None => Some(None)
    case Some(JNull) => Some(None)
    case Some(JStr(s)) => Some(Some(s))
    case Some(_) => None
  }

  /** The date adapter: `LocalDate.parse` of the string, which throws on
      anything else. */
  function DateMember(members: seq<Member>, name: string): Option<CalendarDate> {
    match Lookup(members, name)
    case Some(JStr(s)) => Parse(s)
    case _ => None
  }

  function StringItems(items: seq<Json>): Option<seq<string>> {
    if items == [] then Some([])
    else match (items[0], StringItems(items[1..]))
      case (JStr(s), Some(rest)) => Some([s] + rest)
      case _ => None
  }

  function StringListMember(members: seq<Member>, name: string): Option<seq<string>> {
    match Lookup(members, name)
    case Some(JArr(items)) => StringItems(items)
    case _ => None
  }

  function EventFromJson(j: Json): Option<MemoryEvent> {
    if !j.JObj? then None
    else
      var m := j.members;
      var id := IntMember(m, "id", -0x8000_0000, 0x8000_0000);
      var title := StringMember(m, "title");
      var date := DateMember(m, "date");
      var message := StringMember(m, "message");
      var photos := StringListMember(m, "photoPaths");
      var audio := NullableStringMember(m, "audioPath");
      var createdAt := IntMember(m, "createdAt", -0x8000_0000_0000_0000, 0x8000_0000_0000_0000);
      if id.Some? && title.Some? && date.Some? && message.Some? && photos.Some? && audio.Some? && createdAt.Some? then
        Some(MemoryEvent(id.value, title.value, date.value, message.value, photos.value, audio.value, createdAt.value))
      else None
  }

  function AnniversaryFromJson(j: Json): Option<Anniversary> {
    if !j.JObj? then None
    else
      var m := j.members;
      var id := IntMember(m, "id", -0x8000_0000, 0x8000_0000);
      var title := StringMember(m, "title");
      var date := DateMember(m, "date");
      var description := StringMember(m, "description");
      var important := BoolMember(m, "isImportant");
      var createdAt := IntMember(m, "createdAt", -0x8000_0000_0000_0000, 0x8000_0000_0000_0000);
      if id.Some? && title.Some? && date.Some? && description.Some? && important.Some? && createdAt.Some? then
        Some(Anniversary(id.value, title.value, date.value, description.value, important.value, createdAt.value))
      else None
  }

  function EventsFromJson(items: seq<Json>): Option<seq<MemoryEvent>> {
    if items == [] then Some([])
    else match (EventFromJson(items[0]), EventsFromJson(items[1..]))
      case (Some(e), Some(rest)) => Some([e] + rest)
      case _ => None
  }

  function AnniversariesFromJson(items: seq<Json>): Option<seq<Anniversary>> {
    if items == [] then Some([])
    else match (AnniversaryFromJson(items[0]), AnniversariesFromJson(items[1..]))
      case (Some(a), Some(rest)) => Some([a] + rest)
      case _ => None
  }

  /** A list member: absent or `null` is a null list. */
  function ListMember<T>(members: seq<Member>, name: string, decode: seq<Json> -> Option<seq<T>>): Option<Option<seq<T>>> {
    match Lookup(members, name)
    case None => Some(None)
    case Some(JNull) => Some(None)
    case Some(JArr(items)) => if decode(items).Some? then Some(Some(decode(items).value)) else None
    case Some(_) => None
  }

  /** What `gson.fromJson(text, ExportData::class.java)` returns or throws. */
  datatype Outcome = Decoded(data: ExportData) | NullDocument | Malformed

  function FromJson(j: Json): Outcome {
    match j
    case JNull => NullDocument
    case JObj(m) =>
      var memories := ListMember(m, "memories", EventsFromJson);
      var anniversaries := ListMember(m, "anniversaries", AnniversariesFromJson);
      var exportDate := NullableStringMember(m, "exportDate");
      var version := NullableStringMember(m, "version");
      if memories.Some? && anniversaries.Some? && exportDate.Some? && version.Some? then
        Decoded(ExportData(memories.value, anniversaries.value, exportDate.value, version.value))
      else Malformed
    case _ => Malformed
  }

  // ---------------------------------------------------------------------
  // Text level

  /** What reading a text yields: a tree, an empty document, or a syntax
      error. */
  datatype TextOutcome = Parsed(tree: Json) | EmptyDocument | SyntaxError

  /** The printer and reader between trees and entry bytes. */
  datatype TextCodec = TextCodec(render: Json -> Bytes, read: Bytes -> TextOutcome)

  /** The reader reads back whatever the printer writes. */
  ghost predicate Faithful(codec: TextCodec) {
    forall j :: codec.read(codec.render(j)) == Parsed(j)
  }

  function EncodeSnapshot(codec: TextCodec, d: ExportData): Bytes {
    codec.render(ToJson(d))
  }

  /** Reading a `data.json` entry: an empty text or `null` gives a null
      snapshot, anything Gson rejects throws. */
  function DecodeSnapshot(codec: TextCodec, data: Bytes): Outcome {
    match codec.read(data)
    case Parsed(j) => FromJson(j)
    case EmptyDocument => NullDocument
    case SyntaxError => Malformed
  }

  // ---------------------------------------------------------------------
  // Round trip

  lemma StringsRoundTrip(xs: seq<string>)
    ensures StringItems(Strings(xs)) == Some(xs)
  {
    if xs != [] {
      StringsRoundTrip(xs[1..]);
      assert [xs[0]] + xs[1..] == xs;
    }
  }

  /** The member that decides a name is its last occurrence. */
  lemma {:induction false} LookupLast(members: seq<Member>, i: int, name: string)
    requires 0 <= i < |members| && members[i].name == name
    requires forall j :: i < j < |members| ==> members[j].name != name
    ensures Lookup(members, name) == Some(members[i].value)
    decreases |members|
  {
    if i < |members| - 1 {
      LookupLast(members[..|members| - 1], i, name);
    }
  }

  lemma {:induction false} LookupAbsent(members: seq<Member>, name: string)
    requires forall j :: 0 <= j < |members| ==> members[j].name != name
    ensures Lookup(members, name) == None
    decreases |members|
  {
    if members != [] {
      LookupAbsent(members[..|members| - 1], name);
    }
  }

  /** Decoding an object whose members decode to the fields of `e`. */
  lemma EventFromMembers(j: Json, e: MemoryEvent)
    requires j.JObj?
    requires IntMember(j.members, "id", -0x8000_0000, 0x8000_0000) == Some(e.id as int)
    requires StringMember(j.members, "title") == Some(e.title)
    requires DateMember(j.members, "date") == Some(e.date)
    requires StringMember(j.members, "message") == Some(e.message)
    requires StringListMember(j.members, "photoPaths") == Some(e.photoPaths)
    requires NullableStringMember(j.members, "audioPath") == Some(e.audioPath)
    requires IntMember(j.members, "createdAt", -0x8000_0000_0000_0000, 0x8000_0000_0000_0000) == Some(e.createdAt as int)
    ensures EventFromJson(j) == Some(e)
  {
  }

  lemma EventHeadMembers(e: MemoryEvent)
    ensures IntMember(EventJson(e).members, "id", -0x8000_0000, 0x8000_0000) == Some(e.id as int)
    ensures StringMember(EventJson(e).members, "title") == Some(e.title)
    ensures DateMember(EventJson(e).members, "date") == Some(e.date)
  {
    EventIdMember(e);
    EventTitleMember(e);
    EventDateMember(e);
  }

  lemma EventIdMember(e: MemoryEvent)
    ensures Lookup(EventJson(e).members, "id") == Some(JNum(e.id as int))
  {
    LookupLast(EventJson(e).members, 0, "id");
  }

  lemma EventTitleMember(e: MemoryEvent)
    ensures Lookup(EventJson(e).members, "title") == Some(JStr(e.title))
  {
    LookupLast(EventJson(e).members, 1, "title");
  }

  lemma EventDateMember(e: MemoryEvent)
    ensures DateMember(EventJson(e).members, "date") == Some(e.date)
  {
    ParseFormat(e.date);
    LookupLast(EventJson(e).members, 2, "date");
  }

  lemma EventBodyMembers(e: MemoryEvent)
    ensures StringMember(EventJson(e).members, "message") == Some(e.message)
    ensures StringListMember(EventJson(e).members, "photoPaths") == Some(e.photoPaths)
  {
    EventMessageMember(e);
    EventPhotosMember(e);
  }

  lemma EventMessageMember(e: MemoryEvent)
    ensures Lookup(EventJson(e).members, "message") == Some(JStr(e.message))
  {
    LookupLast(EventJson(e).members, 3, "message");
  }

  lemma EventPhotosMember(e: MemoryEvent)
    ensures StringListMember(EventJson(e).members, "photoPaths") == Some(e.photoPaths)
  {
    StringsRoundTrip(e.photoPaths);
    LookupLast(EventJson(e).members, 4, "photoPaths");
  }

  lemma EventTailMembers(e: MemoryEvent)
    ensures NullableStringMember(EventJson(e).members, "audioPath") == Some(e.audioPath)
    ensures IntMember(EventJson(e).members, "createdAt", -0x8000_0000_0000_0000, 0x8000_0000_0000_0000) == Some(e.createdAt as int)
  {
    EventAudioMember(e);
    EventCreatedMember(e);
  }

  lemma EventAudioMember(e: MemoryEvent)
    ensures Lookup(EventJson(e).members, "audioPath") == if e.audioPath.Some? then Some(JStr(e.audioPath.value)) else None
  {
    if e.audioPath.Some? {
      LookupLast(EventJson(e).members, 5, "audioPath");
    } else {
      LookupAbsent(EventJson(e).members, "audioPath");
    }
  }

  lemma EventCreatedMember(e: MemoryEvent)
    ensures Lookup(EventJson(e).members, "createdAt") == Some(JNum(e.createdAt as int))
  {
    if e.audioPath.Some? {
      LookupLast(EventJson(e).members, 6, "createdAt");
    } else {
      LookupLast(EventJson(e).members, 5, "createdAt");
    }
  }

  /** A memory survives the trip through its JSON object. */
  lemma EventRoundTrip(e: MemoryEvent)
    ensures EventFromJson(EventJson(e)) == Some(e)
  {
    EventHeadMembers(e);
    EventBodyMembers(e);
    EventTailMembers(e);
    EventFromMembers(EventJson(e), e);
  }

  lemma AnniversaryFromMembers(j: Json, a: Anniversary)
    requires j.JObj?
    requires IntMember(j.members, "id", -0x8000_0000, 0x8000_0000) == Some(a.id as int)
    requires StringMember(j.members, "title") == Some(a.title)
    requires DateMember(j.members, "date") == Some(a.date)
    requires StringMember(j.members, "description") == Some(a.description)
    requires BoolMember(j.members, "isImportant") == Some(a.isImportant)
    requires IntMember(j.members, "createdAt", -0x8000_0000_0000_0000, 0x8000_0000_0000_0000) == Some(a.createdAt as int)
    ensures AnniversaryFromJson(j) == Some(a)
  {
  }

  lemma AnniversaryHeadMembers(a: Anniversary)
    ensures IntMember(AnniversaryJson(a).members, "id", -0x8000_0000, 0x8000_0000) == Some(a.id as int)
    ensures StringMember(AnniversaryJson(a).members, "title") == Some(a.title)
    ensures DateMember(AnniversaryJson(a).members, "date") == Some(a.date)
  {
    AnniversaryIdMember(a);
    AnniversaryTitleMember(a);
    AnniversaryDateMember(a);
  }

  lemma AnniversaryIdMember(a: Anniversary)
    ensures Lookup(AnniversaryJson(a).members, "id") == Some(JNum(a.id as int))
  {
    LookupLast(AnniversaryJson(a).members, 0, "id");
  }

  lemma AnniversaryTitleMember(a: Anniversary)
    ensures Lookup(AnniversaryJson(a).members, "title") == Some(JStr(a.title))
  {
    LookupLast(AnniversaryJson(a).members, 1, "title");
  }

  lemma AnniversaryDateMember(a: Anniversary)
    ensures DateMember(AnniversaryJson(a).members, "date") == Some(a.date)
  {
    ParseFormat(a.date);
    LookupLast(AnniversaryJson(a).members, 2, "date");
  }

  lemma AnniversaryTailMembers(a: Anniversary)
    ensures StringMember(AnniversaryJson(a).members, "description") == Some(a.description)
    ensures BoolMember(AnniversaryJson(a).members, "isImportant") == Some(a.isImportant)
    ensures IntMember(AnniversaryJson(a).members, "createdAt", -0x8000_0000_0000_0000, 0x8000_0000_0000_0000) == Some(a.createdAt as int)
  {
    var m := AnniversaryJson(a).members;
    LookupLast(m, 3, "description");
    LookupLast(m, 4, "isImportant");
    LookupLast(m, 5, "createdAt");
  }

  /** An anniversary survives the trip through its JSON object. */
  lemma AnniversaryRoundTrip(a: Anniversary)
    ensures AnniversaryFromJson(AnniversaryJson(a)) == Some(a)
  {
    AnniversaryHeadMembers(a);
    AnniversaryTailMembers(a);
    AnniversaryFromMembers(AnniversaryJson(a), a);
  }

  lemma {:induction false} EventsRoundTrip(es: seq<MemoryEvent>)
    ensures EventsFromJson(EventsJson(es)) == Some(es)
  {
    if es != [] {
      EventRoundTrip(es[0]);
      EventsRoundTrip(es[1..]);
      EventsCons(EventJson(es[0]), EventsJson(es[1..]), es[0], es[1..]);
      assert [EventJson(es[0])] + EventsJson(es[1..]) == EventsJson(es);
      assert [es[0]] + es[1..] == es;
    }
  }

  /** A list decodes item by item. */
  lemma EventsCons(j: Json, rest: seq<Json>, e: MemoryEvent, es: seq<MemoryEvent>)
    requires EventFromJson(j) == Some(e) && EventsFromJson(rest) == Some(es)
    ensures EventsFromJson([j] + rest) == Some([e] + es)
  {
    assert ([j] + rest)[0] == j && ([j] + rest)[1..] == rest;
  }

  lemma {:induction false} AnniversariesRoundTrip(as_: seq<Anniversary>)
    ensures AnniversariesFromJson(AnniversariesJson(as_)) == Some(as_)
  {
    if as_ != [] {
      AnniversaryRoundTrip(as_[0]);
      AnniversariesRoundTrip(as_[1..]);
      AnniversariesCons(AnniversaryJson(as_[0]), AnniversariesJson(as_[1..]), as_[0], as_[1..]);
      assert [AnniversaryJson(as_[0])] + AnniversariesJson(as_[1..]) == AnniversariesJson(as_);
      assert [as_[0]] + as_[1..] == as_;
    }
  }

  lemma AnniversariesCons(j: Json, rest: seq<Json>, a: Anniversary, as_: seq<Anniversary>)
    requires AnniversaryFromJson(j) == Some(a) && AnniversariesFromJson(rest) == Some(as_)
    ensures AnniversariesFromJson([j] + rest) == Some([a] + as_)
  {
    assert ([j] + rest)[0] == j && ([j] + rest)[1..] == rest;
  }

  /** A name's last occurrence in a joined list is in the second part if it
      occurs there at all. */
  lemma {:induction false} LookupAppend(xs: seq<Member>, ys: seq<Member>, name: string)
    ensures Lookup(xs + ys, name) == if Lookup(ys, name).Some? then Lookup(ys, name) else Lookup(xs, name)
    decreases |ys|
  {
    if ys == [] {
      assert xs + ys == xs;
    } else {
      var zs := xs + ys;
      assert zs[..|zs| - 1] == xs + ys[..|ys| - 1];
      assert zs[|zs| - 1] == ys[|ys| - 1];
      LookupAppend(xs, ys[..|ys| - 1], name);
    }
  }

  function MemoriesMember(d: ExportData): seq<Member> {
    Optional("memories", if d.memories.Some? then Some(JArr(EventsJson(d.memories.value))) else None)
  }

  function AnniversariesMember(d: ExportData): seq<Member> {
    Optional("anniversaries", if d.anniversaries.Some? then Some(JArr(AnniversariesJson(d.anniversaries.value))) else None)
  }

  function ExportDateMember(d: ExportData): seq<Member> {
    Optional("exportDate", if d.exportDate.Some? then Some(JStr(d.exportDate.value)) else None)
  }

  function VersionMember(d: ExportData): seq<Member> {
    Optional("version", if d.version.Some? then Some(JStr(d.version.value)) else None)
  }

  lemma OptionalLookup(n: string, value: Option<Json>, name: string)
    ensures Lookup(Optional(n, value), name) == if name == n then value else None
  {
    if value.Some? {
      assert Optional(n, value)[..0] == [];
    }
  }

  /** Which of the four optional members decides a name. */
  lemma LookupFour(a: seq<Member>, b: seq<Member>, c: seq<Member>, v: seq<Member>, name: string)
    ensures Lookup(a + b + c + v, name) ==
      if Lookup(v, name).Some? then Lookup(v, name)
      else if Lookup(c, name).Some? then Lookup(c, name)
      else if Lookup(b, name).Some? then Lookup(b, name)
      else Lookup(a, name)
  {
    LookupAppend(a + b + c, v, name);
    LookupAppend(a + b, c, name);
    LookupAppend(a, b, name);
  }

  /** How the four members of `ExportData` read back, one name at a time. */
  lemma ExportDataLookup(d: ExportData, name: string)
    ensures Lookup(ToJson(d).members, name) ==
      if name == "version" then (if d.version.Some? then Some(JStr(d.version.value)) else None)
      else if name == "exportDate" then (if d.exportDate.Some? then Some(JStr(d.exportDate.value)) else None)
      else if name == "anniversaries" then (if d.anniversaries.Some? then Some(JArr(AnniversariesJson(d.anniversaries.value))) else None)
      else if name == "memories" then (if d.memories.Some? then Some(JArr(EventsJson(d.memories.value))) else None)
      else None
  {
    var a, b, c, v := MemoriesMember(d), AnniversariesMember(d), ExportDateMember(d), VersionMember(d);
    assert ToJson(d).members == a + b + c + v;
    LookupFour(a, b, c, v, name);
    OptionalLookup("memories", if d.memories.Some? then Some(JArr(EventsJson(d.memories.value))) else None, name);
    OptionalLookup("anniversaries", if d.anniversaries.Some? then Some(JArr(AnniversariesJson(d.anniversaries.value))) else None, name);
    OptionalLookup("exportDate", if d.exportDate.Some? then Some(JStr(d.exportDate.value)) else None, name);
    OptionalLookup("version", if d.version.Some? then Some(JStr(d.version.value)) else None, name);
  }

  lemma ExportDataFromMembers(j: Json, d: ExportData)
    requires j.JObj?
    requires ListMember(j.members, "memories", EventsFromJson) == Some(d.memories)
    requires ListMember(j.members, "anniversaries", AnniversariesFromJson) == Some(d.anniversaries)
    requires NullableStringMember(j.members, "exportDate") == Some(d.exportDate)
    requires NullableStringMember(j.members, "version") == Some(d.version)
    ensures FromJson(j) == Decoded(d)
  {
  }

  /** Decoding the tree Gson writes gives back the same `ExportData`,
      version and export date included. */
  lemma JsonRoundTrip(d: ExportData)
    ensures FromJson(ToJson(d)) == Decoded(d)
  {
    MemoriesReadBack(d);
    AnniversariesReadBack(d);
    ExportDataLookup(d, "exportDate");
    ExportDataLookup(d, "version");
    ExportDataFromMembers(ToJson(d), d);
  }

  lemma MemoriesReadBack(d: ExportData)
    ensures ListMember(ToJson(d).members, "memories", EventsFromJson) == Some(d.memories)
  {
    ExportDataLookup(d, "memories");
    if d.memories.Some? {
      EventsRoundTrip(d.memories.value);
    }
  }

  lemma AnniversariesReadBack(d: ExportData)
    ensures ListMember(ToJson(d).members, "anniversaries", AnniversariesFromJson) == Some(d.anniversaries)
  {
    ExportDataLookup(d, "anniversaries");
    if d.anniversaries.Some? {
      AnniversariesRoundTrip(d.anniversaries.value);
    }
  }

  /** A `data.json` written by the export reads back as the same snapshot
      when the reader reads what the printer writes. */
  lemma SnapshotRoundTrip(codec: TextCodec, d: ExportData)
    requires Faithful(codec)
    ensures DecodeSnapshot(codec, EncodeSnapshot(codec, d)) == Decoded(d)
  {
    JsonRoundTrip(d);
  }
}
