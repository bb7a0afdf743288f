/** `ExportImportUtils.exportToText`: a readable report of the anniversaries,
    in the order given, and of the memories, oldest first, written to
    `memories_text_<millis>.txt` in the exports directory. */
module TextExport {
  import opened Wrappers
  import opened Text
  import opened Dates
  import opened Paths
  import opened Records
  import opened Files
  import opened Listing
  import opened ExportImportUtils

  /** `memories_text_<millis>.txt` in the exports directory. */
  function TextPath(externalDir: Path, now: nat): Path {
    Join(ExportDir(externalDir), "memories_text_" + Decimal(now) + ".txt")
  }

  // ---------------------------------------------------------------------
  // `sortedBy { it.date }`: a stable sort on the date

  /** `m` placed after every element whose date is not later than its own. */
  function Insert(xs: seq<MemoryEvent>, m: MemoryEvent): seq<MemoryEvent> {
    if xs == [] || !Before(m.date, xs[|xs| - 1].date) then xs + [m]
    else Insert(xs[..|xs| - 1], m) + [xs[|xs| - 1]]
  }

  function SortedByDate(ms: seq<MemoryEvent>): seq<MemoryEvent> {
    if ms == [] then [] else Insert(SortedByDate(ms[..|ms| - 1]), ms[|ms| - 1])
  }

  /** The memories of one date, in the order given. */
  function OnDate(xs: seq<MemoryEvent>, d: CalendarDate): seq<MemoryEvent> {
    if xs == [] then []
    else OnDate(xs[..|xs| - 1], d) + (if xs[|xs| - 1].date == d then [xs[|xs| - 1]] else [])
  }

  lemma OnDateAppend(xs: seq<MemoryEvent>, y: MemoryEvent, d: CalendarDate)
    ensures OnDate(xs + [y], d) == OnDate(xs, d) + (if y.date == d then [y] else [])
  {
    assert (xs + [y])[..|xs|] == xs;
  }

  lemma {:induction false} InsertPermutes(xs: seq<MemoryEvent>, m: MemoryEvent)
    ensures multiset(Insert(xs, m)) == multiset(xs) + multiset{m}
    decreases |xs|
  {
    if xs != [] && Before(m.date, xs[|xs| - 1].date) {
      var front := xs[..|xs| - 1];
      InsertPermutes(front, m);
      assert xs == front + [xs[|xs| - 1]];
    }
  }

  lemma BeforeTransitive(a: Date, b: Date, c: Date)
    requires !Before(b, a) && !Before(c, b)
    ensures !Before(c, a)
  {
  }

  /** Inserting into a date-ordered list keeps it date-ordered. */
  lemma {:induction false} InsertOrdered(xs: seq<MemoryEvent>, m: MemoryEvent)
    requires Chronological(xs, MemoryDate, false)
    ensures Chronological(Insert(xs, m), MemoryDate, false)
    decreases |xs|
  {
    if xs == [] {
    } else if !Before(m.date, xs[|xs| - 1].date) {
      var r := xs + [m];
      forall i, j | 0 <= i < j < |r|
        ensures !Precedes(MemoryDate(r[j]), MemoryDate(r[i]), false)
      {
        if j == |xs| {
          if i < |xs| - 1 {
            BeforeTransitive(xs[i].date, xs[|xs| - 1].date, m.date);
          }
        }
      }
    } else {
      var front, last := xs[..|xs| - 1], xs[|xs| - 1];
      InsertOrdered(front, m);
      var ins := Insert(front, m);
      InsertPermutes(front, m);
      var r := ins + [last];
      forall i, j | 0 <= i < j < |r|
        ensures !Precedes(MemoryDate(r[j]), MemoryDate(r[i]), false)
      {
        if j == |ins| {
          var y := r[i];
          assert y in multiset(ins);
          if y != m {
            assert y in multiset(front);
            var k :| 0 <= k < |front| && front[k] == y;
            assert xs[k] == y;
          }
        }
      }
    }
  }

  /** Inserting `m` adds it after the memories of its date already there. */
  lemma {:induction false} InsertStable(xs: seq<MemoryEvent>, m: MemoryEvent, d: CalendarDate)
    ensures OnDate(Insert(xs, m), d) == OnDate(xs, d) + (if m.date == d then [m] else [])
    decreases |xs|
  {
    if xs == [] || !Before(m.date, xs[|xs| - 1].date) {
      OnDateAppend(xs, m, d);
    } else {
      var front, last := xs[..|xs| - 1], xs[|xs| - 1];
      InsertStable(front, m, d);
      OnDateAppend(Insert(front, m), last, d);
      assert xs == front + [last];
      OnDateAppend(front, last, d);
    }
  }

  /** The sorted list holds the memories given, each as often as given. */
  lemma {:induction false} SortedByDatePermutes(ms: seq<MemoryEvent>)
    ensures multiset(SortedByDate(ms)) == multiset(ms)
    decreases |ms|
  {
    if ms != [] {
      var front := ms[..|ms| - 1];
      SortedByDatePermutes(front);
      InsertPermutes(SortedByDate(front), ms[|ms| - 1]);
      assert ms == front + [ms[|ms| - 1]];
    }
  }

  /** The sorted list is in date order, oldest first. */
  lemma {:induction false} SortedByDateOrdered(ms: seq<MemoryEvent>)
    ensures Chronological(SortedByDate(ms), MemoryDate, false)
    decreases |ms|
  {
    if ms != [] {
      SortedByDateOrdered(ms[..|ms| - 1]);
      InsertOrdered(SortedByDate(ms[..|ms| - 1]), ms[|ms| - 1]);
    }
  }

  /** The sort is stable: the memories of each date keep their order. */
  lemma {:induction false} SortedByDateStable(ms: seq<MemoryEvent>, d: CalendarDate)
    ensures OnDate(SortedByDate(ms), d) == OnDate(ms, d)
    decreases |ms|
  {
    if ms != [] {
      var front, last := ms[..|ms| - 1], ms[|ms| - 1];
      SortedByDateStable(front, d);
      InsertStable(SortedByDate(front), last, d);
      assert ms == front + [last];
      OnDateAppend(front, last, d);
    }
  }

  // ---------------------------------------------------------------------
  // A date-ordered list is fixed by the order within each date

  lemma OnDateWitness(xs: seq<MemoryEvent>, d: CalendarDate) returns (i: nat)
    requires OnDate(xs, d) != []
    ensures i < |xs| && xs[i].date == d
    decreases |xs|
  {
    var front := xs[..|xs| - 1];
    if xs[|xs| - 1].date == d {
      i := |xs| - 1;
    } else {
      i := OnDateWitness(front, d);
    }
  }

  lemma ChronologicalFront(xs: seq<MemoryEvent>)
    requires xs != [] && Chronological(xs, MemoryDate, false)
    ensures Chronological(xs[..|xs| - 1], MemoryDate, false)
  {
    var front := xs[..|xs| - 1];
    forall i, j | 0 <= i < j < |front|
      ensures !Precedes(MemoryDate(front[j]), MemoryDate(front[i]), false)
    {
      assert front[i] == xs[i] && front[j] == xs[j];
    }
  }

  /** The last element of a date-ordered list carries its latest date. */
  lemma LastIsLatest(xs: seq<MemoryEvent>, d: CalendarDate)
    requires xs != [] && Chronological(xs, MemoryDate, false) && OnDate(xs, d) != []
    ensures !Before(xs[|xs| - 1].date, d)
  {
    var i := OnDateWitness(xs, d);
    if i < |xs| - 1 {
      assert !Precedes(MemoryDate(xs[|xs| - 1]), MemoryDate(xs[i]), false);
    }
  }

  lemma OnOwnDate(xs: seq<MemoryEvent>)
    requires xs != []
    ensures OnDate(xs, xs[|xs| - 1].date) != []
  {
  }

  /** Two date-ordered lists with the same memories, in the same order, on
      every date end with the same memory, and agree on every date without
      it. */
  lemma SameLast(xf: seq<MemoryEvent>, x: MemoryEvent, yf: seq<MemoryEvent>, y: MemoryEvent)
    requires Chronological(xf + [x], MemoryDate, false) && Chronological(yf + [y], MemoryDate, false)
    requires forall d: CalendarDate :: OnDate(xf + [x], d) == OnDate(yf + [y], d)
    ensures x == y
    ensures forall d: CalendarDate :: OnDate(xf, d) == OnDate(yf, d)
  {
    var xs, ys := xf + [x], yf + [y];
    OnDateAppend(xf, x, x.date);
    OnDateAppend(yf, y, y.date);
    assert OnDate(ys, x.date) == OnDate(xs, x.date);
    assert OnDate(xs, y.date) == OnDate(ys, y.date);
    assert ys[|ys| - 1] == y && xs[|xs| - 1] == x;
    LastIsLatest(ys, x.date);
    LastIsLatest(xs, y.date);
    Trichotomy(x.date, y.date);
    assert x.date == y.date;
    forall d: CalendarDate
      ensures OnDate(xf, d) == OnDate(yf, d)
    {
      assert OnDate(xs, d) == OnDate(ys, d);
      OnDateAppend(xf, x, d);
      OnDateAppend(yf, y, d);
      if d == x.date {
        var a, b := OnDate(xs, d), OnDate(ys, d);
        assert a == OnDate(xf, d) + [x] && b == OnDate(yf, d) + [y];
        assert OnDate(xf, d) == a[..|a| - 1];
        assert OnDate(yf, d) == b[..|b| - 1];
      } else {
        assert OnDate(xs, d) == OnDate(xf, d) + [] == OnDate(xf, d);
        assert OnDate(ys, d) == OnDate(yf, d) + [] == OnDate(yf, d);
      }
    }
    assert OnDate(xs, x.date)[|OnDate(xs, x.date)| - 1] == x;
    assert OnDate(ys, x.date)[|OnDate(ys, x.date)| - 1] == y;
  }

  /** Two date-ordered lists with the same memories, in the same order, on
      every date are the same list. */
  lemma {:induction false} ChronologicalUnique(xs: seq<MemoryEvent>, ys: seq<MemoryEvent>)
    requires Chronological(xs, MemoryDate, false) && Chronological(ys, MemoryDate, false)
    requires forall d: CalendarDate :: OnDate(xs, d) == OnDate(ys, d)
    ensures xs == ys
    decreases |xs|
  {
    if xs == [] && ys != [] {
      OnOwnDate(ys);
      assert false;
    } else if xs != [] && ys == [] {
      OnOwnDate(xs);
      assert false;
    } else if xs != [] {
      var xf, yf := xs[..|xs| - 1], ys[..|ys| - 1];
      assert xs == xf + [xs[|xs| - 1]];
      assert ys == yf + [ys[|ys| - 1]];
      SameLast(xf, xs[|xs| - 1], yf, ys[|ys| - 1]);
      ChronologicalFront(xs);
      ChronologicalFront(ys);
      ChronologicalUnique(xf, yf);
    }
  }

  // ---------------------------------------------------------------------
  // The report

  function Header(today: CalendarDate): string {
    "=== 我们的回忆 ===\n\n" + ("导出时间: " + Format(today) + "\n\n")
  }

  /** Title, date, the description when it is not blank, and a blank line. */
  function AnniversaryBlock(a: Anniversary): string {
    (a.title + "\n")
    + ("日期: " + Format(a.date) + "\n")
    + (if IsBlank(a.description) then "" else "描述: " + a.description + "\n")
    + "\n"
  }

  function AnniversaryBlocks(items: seq<Anniversary>): string {
    if items == [] then "" else AnniversaryBlocks(items[..|items| - 1]) + AnniversaryBlock(items[|items| - 1])
  }

  function AnniversarySection(items: seq<Anniversary>): string {
    if items == [] then "" else "=== 纪念日 ===\n" + AnniversaryBlocks(items) + "\n"
  }

  /** Title, date, message, the photo count when there are photos, a note
      when there is a recording, and a separator. */
  function MemoryBlock(m: MemoryEvent): string {
    (m.title + "\n")
    + ("日期: " + Format(m.date) + "\n")
    + ("内容: " + m.message + "\n")
    + (if m.photoPaths == [] then "" else "照片: " + Decimal(|m.photoPaths|) + "张\n")
    + (if m.audioPath.Some? then "语音: 有录音\n" else "")
    + "---\n\n"
  }

  function MemoryBlocks(ms: seq<MemoryEvent>): string {
    if ms == [] then "" else MemoryBlocks(ms[..|ms| - 1]) + MemoryBlock(ms[|ms| - 1])
  }

  function MemorySection(ms: seq<MemoryEvent>): string {
    if ms == [] then "" else "=== 回忆记录 ===\n" + MemoryBlocks(SortedByDate(ms))
  }

  function Report(today: CalendarDate, memories: seq<MemoryEvent>, anniversaries: seq<Anniversary>): string {
    Header(today) + AnniversarySection(anniversaries) + MemorySection(memories)
  }

  /** The report lists the memories by date and does not otherwise depend on
      the order they are passed in: two lists with the same memories in the
      same order on each date give the same report. */
  lemma ReportIgnoresListOrder(today: CalendarDate, ms1: seq<MemoryEvent>, ms2: seq<MemoryEvent>,
                               anniversaries: seq<Anniversary>)
    requires forall d: CalendarDate :: OnDate(ms1, d) == OnDate(ms2, d)
    ensures Report(today, ms1, anniversaries) == Report(today, ms2, anniversaries)
  {
    var s1, s2 := SortedByDate(ms1), SortedByDate(ms2);
    SortedByDateOrdered(ms1);
    SortedByDateOrdered(ms2);
    forall d: CalendarDate
      ensures OnDate(s1, d) == OnDate(s2, d)
    {
      SortedByDateStable(ms1, d);
      SortedByDateStable(ms2, d);
    }
    ChronologicalUnique(s1, s2);
    SortedByDatePermutes(ms1);
    SortedByDatePermutes(ms2);
    assert |ms1| == |s1| == |s2| == |ms2|;
  }

  /** `sortedBy` is the stable sort: what it returns is in date order,
      holds exactly the memories given, keeps the order of memories sharing
      a date, and is the only list with those properties. */
  lemma SortedByDateIsTheStableSort(ms: seq<MemoryEvent>, r: seq<MemoryEvent>)
    ensures Chronological(SortedByDate(ms), MemoryDate, false)
    ensures multiset(SortedByDate(ms)) == multiset(ms)
    ensures forall d: CalendarDate :: OnDate(SortedByDate(ms), d) == OnDate(ms, d)
    ensures Chronological(r, MemoryDate, false) && (forall d: CalendarDate :: OnDate(r, d) == OnDate(ms, d))
            ==> r == SortedByDate(ms)
  {
    SortedByDateOrdered(ms);
    SortedByDatePermutes(ms);
    forall d: CalendarDate
      ensures OnDate(SortedByDate(ms), d) == OnDate(ms, d)
    {
      SortedByDateStable(ms, d);
    }
    if Chronological(r, MemoryDate, false) && (forall d: CalendarDate :: OnDate(r, d) == OnDate(ms, d)) {
      ChronologicalUnique(r, SortedByDate(ms));
    }
  }

  // ---------------------------------------------------------------------
  // Writing the report

  /** The `FileWriter` block: the header, the anniversaries in the order
      given, the memories sorted by date. */
  method WriteReport(memories: seq<MemoryEvent>, anniversaries: seq<Anniversary>, today: CalendarDate)
    returns (text: string)
    ensures text == Report(today, memories, anniversaries)
  {
    text := "=== 我们的回忆 ===\n\n";
    text := text + ("导出时间: " + Format(today) + "\n\n");
    if anniversaries != [] {
      var blocks := WriteAnniversaries(anniversaries);
      text := text + ("=== 纪念日 ===\n" + blocks + "\n");
    }
    assert text == Header(today) + AnniversarySection(anniversaries);
    if memories != [] {
      var blocks := WriteMemories(SortedByDate(memories));
      text := text + ("=== 回忆记录 ===\n" + blocks);
    }
  }

  /** The `anniversaries.forEach` writes. */
  method WriteAnniversaries(anniversaries: seq<Anniversary>) returns (text: string)
    ensures text == AnniversaryBlocks(anniversaries)
  {
    text := "";
    var i := 0;
    while i < |anniversaries|
      invariant 0 <= i <= |anniversaries|
      invariant text == AnniversaryBlocks(anniversaries[..i])
    {
      var block := WriteAnniversary(anniversaries[i]);
      assert anniversaries[..i + 1][..i] == anniversaries[..i];
      text := text + block;
      i := i + 1;
    }
    assert anniversaries[..i] == anniversaries;
  }

  /** The lines written for one anniversary. */
  method WriteAnniversary(a: Anniversary) returns (block: string)
    ensures block == AnniversaryBlock(a)
  {
    block := (a.title + "\n");
    block := block + ("日期: " + Format(a.date) + "\n");
    if !IsBlank(a.description) {
      block := block + ("描述: " + a.description + "\n");
    } else {
      assert block + "" == block;
    }
    block := block + "\n";
  }

  /** The writes for each memory of the sorted list. */
  method WriteMemories(sorted: seq<MemoryEvent>) returns (text: string)
    ensures text == MemoryBlocks(sorted)
  {
    text := "";
    var i := 0;
    while i < |sorted|
      invariant 0 <= i <= |sorted|
      invariant text == MemoryBlocks(sorted[..i])
    {
      var block := WriteMemory(sorted[i]);
      assert sorted[..i + 1][..i] == sorted[..i];
      text := text + block;
      i := i + 1;
    }
    assert sorted[..i] == sorted;
  }

  /** The lines written for one memory. */
  method WriteMemory(m: MemoryEvent) returns (block: string)
    ensures block == MemoryBlock(m)
  {
    block := (m.title + "\n");
    block := block + ("日期: " + Format(m.date) + "\n");
    block := block + ("内容: " + m.message + "\n");
    if m.photoPaths != [] {
      block := block + ("照片: " + Decimal(|m.photoPaths|) + "张\n");
    } else {
      assert block + "" == block;
    }
    if m.audioPath.Some? {
      block := block + "语音: 有录音\n";
    } else {
      assert block + "" == block;
    }
    block := block + "---\n\n";
  }

  /** `exportToText`: the exports directory, created when missing, then the
      report written to a new `memories_text_<millis>.txt`; `null` where
      `FileWriter` throws. */
  method ExportToText(fs: FileSystem, externalDir: Path, memories: seq<MemoryEvent>,
                      anniversaries: seq<Anniversary>, today: CalendarDate, now: nat)
    returns (r: Option<Path>)
    modifies fs
    ensures var dirs := MakeDirs(old(fs.nodes), ExportDir(externalDir));
            var file := TextPath(externalDir, now);
            if CanCreate(dirs, file) then
              r == Some(file) && fs.nodes == dirs[file := TextFile(Report(today, memories, anniversaries))]
            else r == None && fs.nodes == dirs
  {
    var exportDir := Join(externalDir, "exports");
    if !fs.Exists(exportDir) {
      var _ := fs.Mkdirs(exportDir);
    }
    var textFile := Join(exportDir, "memories_text_" + Decimal(now) + ".txt");
    var ok := fs.Create(textFile);
    if !ok {
      return None;
    }
    var text := WriteReport(memories, anniversaries, today);
    fs.Store(textFile, TextFile(text));
    UpdateTwice(MakeDirs(old(fs.nodes), ExportDir(externalDir)), textFile, Blob([]), TextFile(text));
    r := Some(textFile);
  }
}
