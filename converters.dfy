/** Room's type converters: a `LocalDate` column stored as ISO text, and a
    `List<String>` column stored as the JSON array text that `Gson()` writes
    (RFC 8259, section 5 for arrays and section 7 for strings). */
module Converters {
  import opened Wrappers
  import opened Text
  import opened Dates

  datatype DateTimeParseException = DateTimeParseException(text: string)

  // ---------------------------------------------------------------------
  // Dates

  /** `fromLocalDate`: null stays null, a date becomes its ISO text, which
      reads back as the same date. */
  function FromLocalDate(date: Option<CalendarDate>): (r: Option<string>)
    ensures r.None? <==> date.None?
    ensures date.Some? ==> |r.value| == 10 && Parse(r.value) == Some(date.value)
  {
    match date
    case None => None
    case Some(d) => ParseFormat(d); Some(Format(d))
  }

  /** `toLocalDate`: null stays null, ISO text becomes its date, and any
      other text makes `LocalDate.parse` throw, which nothing catches. */
  function ToLocalDate(text: Option<string>): (r: Result<Option<CalendarDate>, DateTimeParseException>)
    ensures text.None? ==> r == Ok(None)
    ensures text.Some? && r.Ok? ==> r.value.Some? && Format(r.value.value) == text.value
    ensures text.Some? && r.Thrown? ==> r.error == DateTimeParseException(text.value)
  {
    match text
    case None => Ok(None)
    case Some(s) =>
      match Parse(s)
      case Some(d) => Ok(Some(d))
      case None => Thrown(DateTimeParseException(s))
  }

  /** The date column round-trips, null included. */
  lemma LocalDateRoundTrip(date: Option<CalendarDate>)
    ensures ToLocalDate(FromLocalDate(date)) == Ok(date)
  {
    if date.Some? {
      ParseFormat(date.value);
    }
  }

  /** Reading a stored text throws exactly when no date is written that way. */
  lemma ToLocalDateThrows(s: string)
    ensures ToLocalDate(Some(s)).Thrown? <==> forall d: CalendarDate :: Format(d) != s
  {
    if !ToLocalDate(Some(s)).Thrown? {
      assert Format(ToLocalDate(Some(s)).value.value) == s;
    } else {
      forall d: CalendarDate ensures Format(d) != s {
        ParseFormat(d);
      }
    }
  }

  // ---------------------------------------------------------------------
  // Writing a string list

  function HexDigit(d: nat): (c: char)
    requires d < 16
  {
    "0123456789abcdef"[d]
  }

  /** `\u00XX` with lower-case hex digits, for a character below U+0080. */
  function ByteEscape(c: char): (s: string)
    requires c as int < 0x80
    ensures |s| == 6
  {
    "\\u00" + [HexDigit(c as int / 16), HexDigit(c as int % 16)]
  }

  /** How Gson's writer, in its default HTML-safe mode, writes one character
      inside a JSON string. */
  function Escape(c: char): (s: string)
    ensures |s| >= 1
  {
    var n := c as int;
    if c == '"' then "\\\""
    else if c == '\\' then "\\\\"
    else if c == '\t' then "\\t"
    else if n == 8 then "\\b"
    else if c == '\n' then "\\n"
    else if c == '\r' then "\\r"
    else if n == 12 then "\\f"
    else if n < 0x20 || c == '<' || c == '>' || c == '&' || c == '=' || c == '\'' then ByteEscape(c)
    else if n == 0x2028 then "\\u2028"
    else if n == 0x2029 then "\\u2029"
    else [c]
  }

  function EscapeAll(x: string): string {
    if x == [] then "" else Escape(x[0]) + EscapeAll(x[1..])
  }

  function Quote(x: string): string {
    "\"" + EscapeAll(x) + "\""
  }

  function JoinElements(xs: seq<string>): string {
    if |xs| == 0 then ""
    else if |xs| == 1 then Quote(xs[0])
    else Quote(xs[0]) + "," + JoinElements(xs[1..])
  }

  /** `fromStringList`: the compact JSON array of the list's strings, in
      order. */
  function FromStringList(value: seq<string>): (r: string)
    ensures |r| >= 2 && r[0] == '[' && r[|r| - 1] == ']'
  {
    "[" + JoinElements(value) + "]"
  }

  // ---------------------------------------------------------------------
  // Reading a string list

  /** A value read from the front of a text, and the text after it. */
  datatype Scan<T> = Scan(value: T, rest: string)

  predicate IsJsonSpace(c: char) {
    c == ' ' || c == '\t' || c == '\n' || c == '\r'
  }

  function SkipSpace(s: string): (r: string)
    ensures |r| <= |s|
    ensures |r| > 0 ==> !IsJsonSpace(r[0])
  {
    if |s| > 0 && IsJsonSpace(s[0]) then SkipSpace(s[1..]) else s
  }

  predicate IsHex(c: char) {
    '0' <= c <= '9' || 'a' <= c <= 'f' || 'A' <= c <= 'F'
  }

  function HexValue(c: char): (v: nat)
    requires IsHex(c)
    ensures v < 16
  {
    if '0' <= c <= '9' then c as int - '0' as int
    else if 'a' <= c <= 'f' then c as int - 'a' as int + 10
    else c as int - 'A' as int + 10
  }

  /** The character that the escape sequence at the front of `s` stands
      for, with the sequence's length. */
  function Unescape(s: string): (r: Option<(char, nat)>)
    requires |s| >= 1 && s[0] == '\\'
    ensures r.Some? ==> 2 <= r.value.1 <= |s|
  {
    if |s| < 2 then None
    else
      var e := s[1];
      if e == '"' || e == '\\' || e == '/' then Some((e, 2))
      else if e == 'b' then Some((8 as char, 2))
      else if e == 'f' then Some((12 as char, 2))
      else if e == 'n' then Some(('\n', 2))
      else if e == 'r' then Some(('\r', 2))
      else if e == 't' then Some(('\t', 2))
      else if e == 'u' && IsQuad(s, 2) then
        var v := QuadValue(s, 2);
        if 0xD800 <= v < 0xDC00 && |s| >= 12 && s[6] == '\\' && s[7] == 'u' && IsQuad(s, 8)
           && 0xDC00 <= QuadValue(s, 8) < 0xE000
        then
          // A surrogate pair: the two UTF-16 units of one supplementary character.
          Some(((0x10000 + (v - 0xD800) * 0x400 + (QuadValue(s, 8) - 0xDC00)) as char, 12))
        else if 0xD800 <= v < 0xE000 then None
        else Some((v as char, 6))
      else None
  }

  /** Four hex digits start at `s[i]`. */
  predicate IsQuad(s: string, i: nat) {
    i + 4 <= |s| && IsHex(s[i]) && IsHex(s[i + 1]) && IsHex(s[i + 2]) && IsHex(s[i + 3])
  }

  /** The 16-bit value of the four hex digits at `s[i]`. */
  function QuadValue(s: string, i: nat): (v: nat)
    requires IsQuad(s, i)
    ensures v < 0x1_0000
  {
    4096 * HexValue(s[i]) + 256 * HexValue(s[i + 1]) + 16 * HexValue(s[i + 2]) + HexValue(s[i + 3])
  }

  /** The characters of a string literal whose opening quote precedes `s`,
      up to its closing quote. */
  function ParseChars(s: string): (r: Option<Scan<string>>)
    ensures r.Some? ==> |r.value.rest| < |s|
    decreases |s|
  {
    if |s| == 0 then None
    else if s[0] == '"' then Some(Scan("", s[1..]))
    else
      var (c, n) := if s[0] == '\\' then Unescape(s).GetOr((s[0], 0)) else (s[0], 1);
      if n == 0 then None
      else
        match ParseChars(s[n..])
        case None => None
        case Some(Scan(v, rest)) => Some(Scan([c] + v, rest))
  }

  /** The string elements of an array after its `[` or after a `,`, through
      the closing `]`. */
  function ParseElements(s: string): (r: Option<Scan<seq<string>>>)
    ensures r.Some? ==> |r.value.rest| < |s|
    decreases |s|
  {
    var t := SkipSpace(s);
    if |t| == 0 || t[0] != '"' then None
    else
      match ParseChars(t[1..])
      case None => None
      case Some(Scan(v, rest)) =>
        var u := SkipSpace(rest);
        if |u| == 0 then None
        else if u[0] == ']' then Some(Scan([v], u[1..]))
        else if u[0] == ',' then
          match ParseElements(u[1..])
          case None => None
          case Some(Scan(vs, after)) => Some(Scan([v] + vs, after))
        else None
  }

  /** What Gson makes of a whole text read as a `List<String>`. */
  datatype ListDocument = EmptyText | NullLiteral | StringArray(items: seq<string>) | Malformed

  function ReadStringList(s: string): ListDocument {
    var t := SkipSpace(s);
    if t == "" then EmptyText
    else if StartsWith(t, "null") then
      (if SkipSpace(t[4..]) == "" then NullLiteral else Malformed)
    else if t[0] != '[' then Malformed
    else
      var u := SkipSpace(t[1..]);
      if StartsWith(u, "]") then
        (if SkipSpace(u[1..]) == "" then StringArray([]) else Malformed)
      else
        match ParseElements(u)
        case Some(Scan(xs, rest)) => if SkipSpace(rest) == "" then StringArray(xs) else Malformed
        case None => Malformed
  }

  /** `toStringList`: the array's strings; an empty text, a JSON `null` and
      any text that is not an array of strings give the empty list. */
  function ToStringList(value: string): (r: seq<string>)
    ensures r != [] ==> ReadStringList(value) == StringArray(r)
    ensures ReadStringList(value) in {EmptyText, NullLiteral, Malformed} ==> r == []
  {
    match ReadStringList(value)
    case StringArray(xs) => xs
    case _ => []
  }

  // ---------------------------------------------------------------------
  // Round trip

  lemma HexRoundTrip(d: nat)
    requires d < 16
    ensures IsHex(HexDigit(d)) && HexValue(HexDigit(d)) == d
  {
  }

  /** Four lower-case hex digits for a 16-bit value, as a `\\u` escape
      carries it. */
  function Quad(v: nat): (q: string)
    requires v < 0x1_0000
    ensures |q| == 4
  {
    [HexDigit(v / 4096), HexDigit(v / 256 % 16), HexDigit(v / 16 % 16), HexDigit(v % 16)]
  }

  /** The four hex digits of a 16-bit value add back up to it. */
  lemma QuadDigits(v: nat)
    requires v < 0x1_0000
    ensures 4096 * (v / 4096) + 256 * (v / 256 % 16) + 16 * (v / 16 % 16) + v % 16 == v
  {
    var n16, n256 := v / 16, v / 256;
    assert v == 16 * n16 + v % 16;
    assert n16 == 16 * (n16 / 16) + n16 % 16;
    assert n16 / 16 == n256;
    assert n256 == 16 * (n256 / 16) + n256 % 16;
    assert n256 / 16 == v / 4096;
  }

  /** Four hex digits written for a value read back as that value. */
  lemma QuadReads(v: nat, s: string, i: nat)
    requires v < 0x1_0000 && i + 4 <= |s| && s[i..i + 4] == Quad(v)
    ensures IsQuad(s, i) && QuadValue(s, i) == v
  {
    var q := Quad(v);
    assert s[i] == q[0] && s[i + 1] == q[1] && s[i + 2] == q[2] && s[i + 3] == q[3];
    HexRoundTrip(v / 4096);
    HexRoundTrip(v / 256 % 16);
    HexRoundTrip(v / 16 % 16);
    HexRoundTrip(v % 16);
    QuadDigits(v);
  }

  /** Every character outside the Basic Multilingual Plane, escaped as
      Gson's reader accepts it, as a UTF-16 surrogate pair (a high unit in
      D800-DBFF carrying the upper ten bits, a low unit in DC00-DFFF the
      lower ten), reads back as that one character. */
  lemma SurrogatePairReads(cp: int, tail: string)
    requires 0x10000 <= cp <= 0x10FFFF
    ensures Unescape("\\u" + Quad(0xD800 + (cp - 0x10000) / 0x400) + "\\u" + Quad(0xDC00 + (cp - 0x10000) % 0x400) + tail)
            == Some((cp as char, 12))
  {
    var high, low := 0xD800 + (cp - 0x10000) / 0x400, 0xDC00 + (cp - 0x10000) % 0x400;
    SurrogateUnits(cp);
    var s := "\\u" + Quad(high) + "\\u" + Quad(low) + tail;
    assert |s| >= 12 && s[0] == '\\' && s[1] == 'u' && s[6] == '\\' && s[7] == 'u';
    assert s[2..6] == Quad(high);
    assert s[8..12] == Quad(low);
    PairReads(high, low, s);
  }

  /** Two written surrogate units read back as the character they
      combine to. */
  lemma PairReads(high: nat, low: nat, s: string)
    requires 0xD800 <= high < 0xDC00 && 0xDC00 <= low < 0xE000
    requires |s| >= 12 && s[0] == '\\' && s[1] == 'u' && s[6] == '\\' && s[7] == 'u'
    requires s[2..6] == Quad(high) && s[8..12] == Quad(low)
    ensures Unescape(s) == Some(((0x10000 + (high - 0xD800) * 0x400 + (low - 0xDC00)) as char, 12))
  {
    QuadReads(high, s, 2);
    QuadReads(low, s, 8);
  }

  /** The two UTF-16 units of a supplementary code point lie in the high
      and low surrogate ranges and recombine to it. */
  lemma SurrogateUnits(cp: int)
    requires 0x10000 <= cp <= 0x10FFFF
    ensures 0xD800 <= 0xD800 + (cp - 0x10000) / 0x400 < 0xDC00
    ensures 0xDC00 <= 0xDC00 + (cp - 0x10000) % 0x400 < 0xE000
    ensures 0x10000 + (cp - 0x10000) / 0x400 * 0x400 + (cp - 0x10000) % 0x400 == cp
  {
  }

  /** The escape sequence written for a character reads back as that
      character. */
  lemma UnescapeEscape(c: char, tail: string)
    requires Escape(c)[0] == '\\'
    ensures Unescape(Escape(c) + tail) == Some((c, |Escape(c)|))
  {
    var s := Escape(c) + tail;
    var n := c as int;
    if |Escape(c)| == 6 && n < 0x80 {
      assert Escape(c) == ByteEscape(c);
      HexRoundTrip(n / 16);
      HexRoundTrip(n % 16);
      assert s[2] == '0' && s[3] == '0';
      assert s[4] == HexDigit(n / 16) && s[5] == HexDigit(n % 16);
      assert 16 * (n / 16) + n % 16 == n;
    }
  }

  /** Reading back one written character. */
  lemma EscapeScan(c: char, tail: string)
    ensures ParseChars(Escape(c) + tail) ==
      match ParseChars(tail)
      case None => None
      case Some(Scan(v, rest)) => Some(Scan([c] + v, rest))
  {
    var s := Escape(c) + tail;
    if Escape(c)[0] == '\\' {
      UnescapeEscape(c, tail);
      assert s[|Escape(c)|..] == tail;
    } else {
      assert Escape(c) == [c];
      assert s[1..] == tail;
    }
  }

  /** A written string body reads back to the string, stopping at the
      closing quote. */
  lemma {:induction false} CharsRoundTrip(x: string, rest: string)
    ensures ParseChars(EscapeAll(x) + "\"" + rest) == Some(Scan(x, rest))
    decreases |x|
  {
    if x == [] {
      assert EscapeAll(x) + "\"" + rest == "\"" + rest;
    } else {
      CharsRoundTrip(x[1..], rest);
      assert EscapeAll(x) + "\"" + rest == Escape(x[0]) + (EscapeAll(x[1..]) + "\"" + rest);
      EscapeScan(x[0], EscapeAll(x[1..]) + "\"" + rest);
      assert [x[0]] + x[1..] == x;
    }
  }

  /** What follows the first element when a list is written. */
  function AfterFirst(xs: seq<string>, rest: string): string
    requires |xs| >= 1
  {
    if |xs| == 1 then "]" + rest else "," + (JoinElements(xs[1..]) + "]" + rest)
  }

  lemma ElementsShape(xs: seq<string>, rest: string)
    requires |xs| >= 1
    ensures JoinElements(xs) + "]" + rest == Quote(xs[0]) + AfterFirst(xs, rest)
  {
    var q := Quote(xs[0]);
    if |xs| > 1 {
      var tail := JoinElements(xs[1..]);
      assert JoinElements(xs) == q + "," + tail;
      ConcatAssoc(q, ",", tail);
      ConcatAssoc(q, "," + tail, "]");
      ConcatAssoc(q, "," + tail + "]", rest);
      ConcatAssoc(",", tail, "]");
      ConcatAssoc(",", tail + "]", rest);
    } else {
      ConcatAssoc(q, "]", rest);
    }
  }

  /** One step of reading elements: the first string, then either the
      closing bracket or a comma and the remaining elements. */
  lemma ElementsStep(xs: seq<string>, rest: string, s: string)
    requires |xs| >= 1
    requires SkipSpace(s) == s && |s| > 0 && s[0] == '"'
    requires ParseChars(s[1..]) == Some(Scan(xs[0], AfterFirst(xs, rest)))
    requires |xs| > 1 ==> ParseElements(JoinElements(xs[1..]) + "]" + rest) == Some(Scan(xs[1..], rest))
    ensures ParseElements(s) == Some(Scan(xs, rest))
  {
    var u := SkipSpace(AfterFirst(xs, rest));
    assert u == AfterFirst(xs, rest);
    if |xs| > 1 {
      assert u[1..] == JoinElements(xs[1..]) + "]" + rest;
      assert [xs[0]] + xs[1..] == xs;
    } else {
      assert u[1..] == rest;
      assert [xs[0]] == xs;
    }
  }

  /** Written elements read back to the list, through the closing bracket. */
  lemma {:induction false} ElementsRoundTrip(xs: seq<string>, rest: string)
    requires |xs| >= 1
    ensures ParseElements(JoinElements(xs) + "]" + rest) == Some(Scan(xs, rest))
    decreases |xs|
  {
    var s := JoinElements(xs) + "]" + rest;
    var after := AfterFirst(xs, rest);
    var e := EscapeAll(xs[0]);
    ElementsShape(xs, rest);
    ConcatAssoc("\"" + e, "\"", after);
    ConcatAssoc("\"", e, "\"" + after);
    ConcatAssoc(e, "\"", after);
    assert SkipSpace(s) == s;
    assert s[1..] == e + "\"" + after;
    CharsRoundTrip(xs[0], after);
    if |xs| > 1 {
      ElementsRoundTrip(xs[1..], rest);
    }
    ElementsStep(xs, rest, s);
  }

  /** `toStringList(fromStringList(xs)) == xs`: the photo list column
      round-trips, order and contents. */
  lemma StringListRoundTrip(xs: seq<string>)
    ensures ToStringList(FromStringList(xs)) == xs
  {
    if xs == [] {
      EmptyListRead();
    } else {
      ElementsRoundTrip(xs, "");
      ListRead(xs);
    }
  }

  lemma EmptyListRead()
    ensures ReadStringList(FromStringList([])) == StringArray([])
  {
    var s := FromStringList([]);
    assert s == "[]";
    assert SkipSpace(s) == s;
    assert SkipSpace(s[1..]) == "]";
    assert s[1..][1..] == "";
  }

  lemma ListRead(xs: seq<string>)
    requires xs != [] && ParseElements(JoinElements(xs) + "]" + "") == Some(Scan(xs, ""))
    ensures ReadStringList(FromStringList(xs)) == StringArray(xs)
  {
    var s := FromStringList(xs);
    assert SkipSpace(s) == s;
    if StartsWith(s, "null") {
      StartsWithHead(s, "null");
      assert false;
    }
    assert s[1..] == JoinElements(xs) + "]" + "";
    assert SkipSpace(s[1..]) == s[1..];
    assert s[1..][0] == '"';
  }
}
