/**
 The CSV export of log entries, and a reader that follows section 2 of RFC 4180 (line
 ends may be LF or CRLF) and recovers every field of the written file.
 */
module LogCsv {
  import opened Bits
  import opened LogStore
  import opened Numerals
  import opened Options
  import opened Sequences

  // ----- The reader ----------------------------------------------------------------------

  datatype Read = Read(field: string, rest: string)

  /** The rest of a quoted field, after its opening quote; a doubled quote stands for one. */
  function QuotedField(t: string): (r: Option<Read>)
    ensures r.Some? ==> |r.value.rest| < |t|
  {
    if t == [] then None
    else if t[0] != '"' then
      match QuotedField(t[1..]) case None => None case Some(r) => Some(Read([t[0]] + r.field, r.rest))
    else if |t| >= 2 && t[1] == '"' then
      match QuotedField(t[2..]) case None => None case Some(r) => Some(Read(['"'] + r.field, r.rest))
    else Some(Read("", t[1..]))
  }

  predicate Special(c: char) { c == ',' || c == '"' || c == '\n' || c == '\r' }

  /** An unquoted field runs up to the next comma or line end and holds no quote. */
  function BareField(t: string): (r: Option<Read>)
    ensures r.Some? ==> |r.value.rest| <= |t|
  {
    if t == [] then Some(Read("", t))
    else if t[0] == '"' then None
    else if Special(t[0]) then Some(Read("", t))
    else match BareField(t[1..]) case None => None case Some(r) => Some(Read([t[0]] + r.field, r.rest))
  }

  function ReadField(t: string): (r: Option<Read>)
    ensures r.Some? ==> |r.value.rest| <= |t|
  {
    if t != [] && t[0] == '"' then QuotedField(t[1..]) else BareField(t)
  }

  /** One record and what follows its line end. */
  function ReadRecord(t: string): (r: Option<(seq<string>, string)>)
    ensures r.Some? ==> |r.value.1| <= |t| && (t != [] ==> |r.value.1| < |t|)
    decreases |t|
  {
    match ReadField(t)
    case None => None
    case Some(Read(f, rest)) =>
      if rest == [] then Some(([f], []))
      else if rest[0] == ',' then
        (match ReadRecord(rest[1..]) case None => None case Some(r) => Some(([f] + r.0, r.1)))
      else if rest[0] == '\n' then Some(([f], rest[1..]))
      else if rest[0] == '\r' && |rest| >= 2 && rest[1] == '\n' then Some(([f], rest[2..]))
      else None
  }

  function ReadFile(t: string): Option<seq<seq<string>>>
    decreases |t|
  {
    if t == [] then Some([])
    else match ReadRecord(t)
      case None => None
      case Some(r) => match ReadFile(r.1) case None => None case Some(rs) => Some([r.0] + rs)
  }

  // ----- The writer ------------------------------------------------------------------------

  datatype Cell = Bare(text: string) | Quoted(text: string)

  function Doubled(s: string): string {
    if s == [] then [] else (if s[0] == '"' then "\"\"" else [s[0]]) + Doubled(s[1..])
  }

  function Show(c: Cell): string {
    match c case Bare(t) => t case Quoted(t) => ['"'] + Doubled(t) + ['"']
  }

  predicate Writable(c: Cell) { c.Bare? ==> forall x :: x in c.text ==> !Special(x) }

  /** Cells separated by commas, ended by a newline. */
  function Line(cells: seq<Cell>): string
    decreases |cells|
  {
    if cells == [] then "\n" else Show(cells[0]) + if |cells| == 1 then "\n" else "," + Line(cells[1..])
  }

  function Texts(cells: seq<Cell>): (r: seq<string>)
    ensures |r| == |cells| && forall i :: 0 <= i < |r| ==> r[i] == cells[i].text
  {
    if cells == [] then [] else [cells[0].text] + Texts(cells[1..])
  }

  const HEADER := [Bare("timestamp_iso"), Bare("timestamp_ns"), Bare("level"), Bare("cpu"), Bare("thread"),
                   Bare("file"), Bare("line"), Bare("function"), Bare("message")]

  function LevelName(level: nat): string {
    if level == 0 then "DEBUG" else if level == 1 then "INFO" else if level == 2 then "WARN"
    else if level == 3 then "ERROR" else if level == 4 then "FATAL" else "?????"
  }

  /** The cells of one row; `iso` is the calendar text of the timestamp. */
  function RowOf(e: Entry, iso: nat -> string): seq<Cell> {
    [Bare(iso(e.tsNs)), Bare(Decimal(e.tsNs)), Bare(LevelName(e.level)), Bare(Decimal(e.cpu)),
     Bare("0x" + UpperHex(e.thread, 8)), Quoted(e.file), Bare(Decimal(e.line)), Quoted(e.func), Quoted(e.message)]
  }

  function Lines(rows: seq<seq<Cell>>): string {
    if rows == [] then [] else Lines(rows[..|rows| - 1]) + Line(rows[|rows| - 1])
  }

  // ----- Reading back what was written ----------------------------------------------------------

  lemma QuoteEnds(rest: string)
    requires rest == [] || rest[0] != '"'
    ensures QuotedField(['"'] + rest) == Some(Read("", rest))
  {
    assert (['"'] + rest)[1..] == rest;
  }

  lemma QuotePair(t: string, s: string, rest: string)
    requires QuotedField(t) == Some(Read(s, rest))
    ensures QuotedField("\"\"" + t) == Some(Read(['"'] + s, rest))
  {
    assert ("\"\"" + t)[2..] == t;
  }

  lemma QuoteLetter(c: char, t: string, s: string, rest: string)
    requires c != '"' && QuotedField(t) == Some(Read(s, rest))
    ensures QuotedField([c] + t) == Some(Read([c] + s, rest))
  {
    assert ([c] + t)[1..] == t;
  }

  lemma DoubledHead(s: string, rest: string)
    requires s != []
    ensures Doubled(s) + ['"'] + rest == (if s[0] == '"' then "\"\"" else [s[0]]) + (Doubled(s[1..]) + ['"'] + rest)
  {
    var head := if s[0] == '"' then "\"\"" else [s[0]];
    assert Doubled(s) == head + Doubled(s[1..]);
    hide Doubled;
    Regroup(head, Doubled(s[1..]), ['"']);
    Regroup(head, Doubled(s[1..]) + ['"'], rest);
  }

  lemma {:induction false} QuotedReads(s: string, rest: string)
    requires rest == [] || rest[0] != '"'
    ensures QuotedField(Doubled(s) + ['"'] + rest) == Some(Read(s, rest))
  {
    if s == [] {
      assert Doubled(s) + ['"'] + rest == ['"'] + rest;
      QuoteEnds(rest);
    } else {
      var more := Doubled(s[1..]) + ['"'] + rest;
      QuotedReads(s[1..], rest);
      DoubledHead(s, rest);
      hide QuotedField, Doubled;
      if s[0] == '"' { QuotePair(more, s[1..], rest); } else { QuoteLetter(s[0], more, s[1..], rest); }
      assert [s[0]] + s[1..] == s;
    }
  }

  lemma {:induction false} BareReads(s: string, rest: string)
    requires forall c :: c in s ==> !Special(c)
    requires rest != [] && Special(rest[0]) && rest[0] != '"'
    ensures BareField(s + rest) == Some(Read(s, rest))
  {
    if s == [] {
      assert s + rest == rest;
    } else {
      assert s[0] in s;
      assert (s + rest)[1..] == s[1..] + rest;
      BareReads(s[1..], rest);
      assert [s[0]] + s[1..] == s;
    }
  }

  lemma BareCellReads(s: string, rest: string)
    requires (forall x :: x in s ==> !Special(x)) && rest != [] && Special(rest[0]) && rest[0] != '"'
    ensures ReadField(s + rest) == Some(Read(s, rest))
  {
    BareReads(s, rest);
    if s != [] { assert s[0] in s; }
  }

  lemma QuotedCellReads(s: string, rest: string)
    requires rest != [] && rest[0] != '"'
    ensures ReadField(Show(Quoted(s)) + rest) == Some(Read(s, rest))
  {
    hide ReadField, QuotedField, Doubled;
    var t := Doubled(s) + ['"'] + rest;
    QuotedReads(s, rest);
    assert Show(Quoted(s)) + rest == ['"'] + t;
    OpenQuote(t);
  }

  lemma OpenQuote(t: string)
    ensures ReadField(['"'] + t) == QuotedField(t)
  {
    assert (['"'] + t)[1..] == t;
  }

  lemma CellReads(c: Cell, rest: string)
    requires Writable(c) && rest != [] && Special(rest[0]) && rest[0] != '"'
    ensures ReadField(Show(c) + rest) == Some(Read(c.text, rest))
  {
    if c.Bare? { BareCellReads(c.text, rest); } else { QuotedCellReads(c.text, rest); }
  }

  ghost predicate GoodRow(cells: seq<Cell>) { cells != [] && forall c :: c in cells ==> Writable(c) }

  lemma RecordStep(t: string, f: string, more: string, fs: seq<string>, rest: string)
    requires ReadField(t) == Some(Read(f, [','] + more)) && ReadRecord(more) == Some((fs, rest))
    ensures ReadRecord(t) == Some(([f] + fs, rest))
  {
    assert ([','] + more)[1..] == more;
  }

  lemma RecordEnd(t: string, f: string, rest: string)
    requires ReadField(t) == Some(Read(f, ['\n'] + rest))
    ensures ReadRecord(t) == Some(([f], rest))
  {
    assert (['\n'] + rest)[1..] == rest;
  }

  lemma {:induction false} LineReads(cells: seq<Cell>, rest: string)
    requires GoodRow(cells)
    ensures ReadRecord(Line(cells) + rest) == Some((Texts(cells), rest))
    decreases |cells|
  {
    var c := cells[0];
    assert c in cells;
    if |cells| == 1 {
      LastCell(cells, rest);
      CellReads(c, ['\n'] + rest);
      RecordEnd(Line(cells) + rest, c.text, rest);
      assert Texts(cells) == [c.text];
    } else {
      var more := Line(cells[1..]) + rest;
      FirstCell(cells, rest);
      CellReads(c, [','] + more);
      LineReads(cells[1..], rest);
      RecordStep(Line(cells) + rest, c.text, more, Texts(cells[1..]), rest);
    }
  }

  lemma LastCell(cells: seq<Cell>, rest: string)
    requires |cells| == 1
    ensures Line(cells) + rest == Show(cells[0]) + (['\n'] + rest)
  {
  }

  lemma FirstCell(cells: seq<Cell>, rest: string)
    requires |cells| > 1
    ensures Line(cells) + rest == Show(cells[0]) + ([','] + (Line(cells[1..]) + rest))
  {
    assert Line(cells) == Show(cells[0]) + ([','] + Line(cells[1..]));
    hide Line, Show;
    Regroup(Show(cells[0]), [','] + Line(cells[1..]), rest);
    Regroup([','], Line(cells[1..]), rest);
  }

  function TextRows(rows: seq<seq<Cell>>): seq<seq<string>> {
    if rows == [] then [] else TextRows(rows[..|rows| - 1]) + [Texts(rows[|rows| - 1])]
  }

  ghost predicate GoodRows(rows: seq<seq<Cell>>) { forall r :: r in rows ==> GoodRow(r) }

  lemma FileStep(t: string, record: seq<string>, rest: string, tail: seq<seq<string>>)
    requires t != [] && ReadRecord(t) == Some((record, rest)) && ReadFile(rest) == Some(tail)
    ensures ReadFile(t) == Some([record] + tail)
  {
  }

  /** Records read from the front: each line gives one. */
  lemma {:induction false} LinesRead(rows: seq<seq<Cell>>, rest: string, tail: seq<seq<string>>)
    requires GoodRows(rows) && ReadFile(rest) == Some(tail)
    ensures ReadFile(Lines(rows) + rest) == Some(TextRows(rows) + tail)
    decreases |rows|
  {
    if rows == [] {
      assert Lines(rows) + rest == rest && TextRows(rows) + tail == tail;
    } else {
      var n := |rows| - 1;
      var row := rows[n];
      assert row in rows;
      LineReads(row, rest);
      FileStep(Line(row) + rest, Texts(row), rest, tail);
      LinesRead(rows[..n], Line(row) + rest, [Texts(row)] + tail);
      LastLineText(rows, rest);
      LastLineRow(rows, tail);
    }
  }

  lemma LastLineText(rows: seq<seq<Cell>>, rest: string)
    requires rows != []
    ensures Lines(rows) + rest == Lines(rows[..|rows| - 1]) + (Line(rows[|rows| - 1]) + rest)
  {
    Regroup(Lines(rows[..|rows| - 1]), Line(rows[|rows| - 1]), rest);
  }

  lemma LastLineRow(rows: seq<seq<Cell>>, tail: seq<seq<string>>)
    requires rows != []
    ensures TextRows(rows) + tail == TextRows(rows[..|rows| - 1]) + ([Texts(rows[|rows| - 1])] + tail)
  {
    Regroup(TextRows(rows[..|rows| - 1]), [Texts(rows[|rows| - 1])], tail);
  }

  // ----- The export -------------------------------------------------------------------------------

  predicate PartAt(s: string, i: nat, part: string) { i + |part| <= |s| && s[i..i + |part|] == part }

  ghost predicate Contains(s: string, part: string) {
    part == "" || exists i: nat :: PartAt(s, i, part)
  }

  /** A part is contained wherever it stands, and where it is contained the text splits around it. */
  lemma ContainsMiddle(a: string, part: string, b: string)
    ensures Contains(a + part + b, part)
  {
    assert PartAt(a + part + b, |a|, part);
  }

  lemma ContainedSplits(s: string, part: string) returns (a: string, b: string)
    requires Contains(s, part)
    ensures s == a + part + b
  {
    if part == "" { return s, ""; }
    var i: nat :| PartAt(s, i, part);
    a, b := s[..i], s[i + |part|..];
  }

  datatype Selection = Selection(tsMin: nat, tsMax: nat, levelMask: nat, filter: string)

  /** The level's bit, cut to eight bits, is in the mask. */
  predicate LevelOn(mask: nat, level: nat) { level < 8 && Bit(mask, level) }

  /** A mask with the bits of these levels. */
  function MaskOf(on: seq<bool>): nat { if on == [] then 0 else (if on[0] then 1 else 0) + 2 * MaskOf(on[1..]) }

  lemma LowBit(b: nat, m: nat)
    requires b < 2
    ensures (b + 2 * m) % 2 == b && (b + 2 * m) / 2 == m
  {
  }

  lemma {:induction false} MaskBits(on: seq<bool>, level: nat)
    ensures Bit(MaskOf(on), level) <==> level < |on| && on[level]
    decreases |on|
  {
    if on == [] {
      ZeroBits(level);
    } else {
      LowBit(if on[0] then 1 else 0, MaskOf(on[1..]));
      if level > 0 { MaskBits(on[1..], level - 1); }
    }
  }

  /** It selects those levels and no others. */
  lemma MaskSelects(on: seq<bool>, level: nat)
    requires |on| <= 8
    ensures LevelOn(MaskOf(on), level) <==> level < |on| && on[level]
  {
    hide Bit, MaskOf;
    MaskBits(on, level);
  }

  ghost predicate Passes(e: Entry, sel: Selection) {
    sel.tsMin <= e.tsNs <= sel.tsMax && LevelOn(sel.levelMask, e.level) && Contains(e.message, sel.filter)
  }

  ghost function Selected(entries: seq<Entry>, sel: Selection): seq<Entry> {
    if entries == [] then []
    else Selected(entries[..|entries| - 1], sel)
         + if Passes(entries[|entries| - 1], sel) then [entries[|entries| - 1]] else []
  }

  function RowsOf(entries: seq<Entry>, iso: nat -> string): (r: seq<seq<Cell>>)
    ensures |r| == |entries| && forall i :: 0 <= i < |r| ==> r[i] == RowOf(entries[i], iso)
  {
    seq(|entries|, i requires 0 <= i < |entries| => RowOf(entries[i], iso))
  }

  ghost function Exported(entries: seq<Entry>, sel: Selection, iso: nat -> string): string {
    Lines([HEADER] + RowsOf(Selected(entries, sel), iso))
  }

  lemma {:induction false} SelectedInOrder(entries: seq<Entry>, sel: Selection)
    ensures forall e :: e in Selected(entries, sel) <==> e in entries && Passes(e, sel)
    ensures Sorted(entries) ==> Sorted(Selected(entries, sel))
    decreases |entries|
  {
    if entries != [] {
      var n := |entries| - 1;
      SelectedInOrder(entries[..n], sel);
      assert entries == entries[..n] + [entries[n]];
      if Sorted(entries) {
        var s := Selected(entries[..n], sel);
        forall i | 0 <= i < |s| ensures s[i].tsNs <= entries[n].tsNs {
          assert s[i] in entries[..n];
        }
      }
    }
  }

  lemma NumberIsClean(n: nat)
    ensures Writable(Bare(Decimal(n)))
  {
    assert forall c :: c in Decimal(n) ==> Digit(c);
  }

  lemma ThreadIsClean(n: nat)
    ensures Writable(Bare("0x" + UpperHex(n, 8)))
  {
    assert forall c :: c in UPPER ==> !Special(c);
  }

  lemma LevelIsClean(level: nat)
    ensures Writable(Bare(LevelName(level)))
  {
    CleanByPlace("DEBUG");
    CleanByPlace("INFO");
    CleanByPlace("WARN");
    CleanByPlace("ERROR");
    CleanByPlace("FATAL");
    CleanByPlace("?????");
    hide Writable;
  }

  /** The calendar text holds no comma, quote or line end. */
  predicate IsoIsClean(text: string) { forall c :: c in text ==> !Special(c) }

  lemma RowIsGood(e: Entry, iso: nat -> string)
    requires IsoIsClean(iso(e.tsNs))
    ensures GoodRow(RowOf(e, iso))
  {
    NumberIsClean(e.tsNs);
    LevelIsClean(e.level);
    NumberIsClean(e.cpu);
    ThreadIsClean(e.thread);
    NumberIsClean(e.line);
    assert Writable(Bare(iso(e.tsNs)));
  }

  /** A row read back gives the entry's time, level, processor, thread and call site, and its message. */
  predicate RowReads(row: seq<string>, e: Entry, iso: nat -> string) {
    && |row| == 9 && row[0] == iso(e.tsNs) && row[1] == Decimal(e.tsNs)
    && row[2] == (if e.level < 5 then ["DEBUG", "INFO", "WARN", "ERROR", "FATAL"][e.level] else "?????")
    && row[3] == Decimal(e.cpu) && row[4] == "0x" + UpperHex(e.thread, 8)
    && row[5] == e.file && row[6] == Decimal(e.line) && row[7] == e.func && row[8] == e.message
  }

  /** The rows read back from a file are the header and one row for each entry, in order. */
  ghost predicate ReadsAs(rows: seq<seq<string>>, chosen: seq<Entry>, iso: nat -> string) {
    && |rows| == |chosen| + 1
    && rows[0] == ["timestamp_iso", "timestamp_ns", "level", "cpu", "thread", "file", "line", "function", "message"]
    && forall i :: 0 <= i < |chosen| ==> RowReads(rows[i + 1], chosen[i], iso)
  }

  /** The reader recovers, in ascending time order, the file, function and message of exactly
      the selected entries, whatever commas, quotes and line ends they hold. */
  lemma ExportReadsBack(entries: seq<Entry>, sel: Selection, iso: nat -> string)
    requires forall e :: e in entries ==> IsoIsClean(iso(e.tsNs))
    ensures ReadFile(Exported(entries, sel, iso)).Some?
    ensures ReadsAs(ReadFile(Exported(entries, sel, iso)).value, Selected(entries, sel), iso)
    ensures forall e :: e in Selected(entries, sel) <==>
              && e in entries && sel.tsMin <= e.tsNs <= sel.tsMax
              && LevelOn(sel.levelMask, e.level) && Contains(e.message, sel.filter)
    ensures Sorted(entries) ==> Sorted(Selected(entries, sel))
  {
    SelectedInOrder(entries, sel);
    hide ReadFile, ReadsAs, Lines, RowsOf, Contains, LevelOn, Sorted, HEADER, IsoIsClean;
    RowsReadBack(Selected(entries, sel), iso);
  }

  lemma RowsReadBack(chosen: seq<Entry>, iso: nat -> string)
    requires forall e :: e in chosen ==> IsoIsClean(iso(e.tsNs))
    ensures ReadFile(Lines([HEADER] + RowsOf(chosen, iso))) == Some(TextRows([HEADER] + RowsOf(chosen, iso)))
    ensures ReadsAs(TextRows([HEADER] + RowsOf(chosen, iso)), chosen, iso)
  {
    hide ReadFile, Lines, TextRows, GoodRows, RowOf, Texts, HEADER, RowReads;
    var rows := [HEADER] + RowsOf(chosen, iso);
    RowsAreGood(chosen, iso);
    WholeFileReads(rows);
    HeaderTexts();
    forall i | 0 <= i < |chosen| ensures RowReads(TextRows(rows)[i + 1], chosen[i], iso) {
      assert rows[i + 1] == RowOf(chosen[i], iso);
      RowTexts(chosen[i], iso);
    }
  }

  lemma HeaderTexts()
    ensures Texts(HEADER)
         == ["timestamp_iso", "timestamp_ns", "level", "cpu", "thread", "file", "line", "function", "message"]
  {
    hide Texts;
  }

  lemma RowTexts(e: Entry, iso: nat -> string)
    ensures RowReads(Texts(RowOf(e, iso)), e, iso)
  {
    hide Texts, Decimal, UpperHex, LevelName;
    LevelNames(e.level);
  }

  lemma LevelNames(level: nat)
    ensures LevelName(level) == if level < 5 then ["DEBUG", "INFO", "WARN", "ERROR", "FATAL"][level] else "?????"
  {
  }

  lemma TimeColumnsAreClean()
    ensures Writable(Bare("timestamp_iso")) && Writable(Bare("timestamp_ns"))
  {
    CleanByPlace("timestamp_iso");
    CleanByPlace("timestamp_ns");
  }

  lemma CleanByPlace(s: string)
    requires forall i :: 0 <= i < |s| ==> !Special(s[i])
    ensures Writable(Bare(s))
  {
  }

  lemma OriginColumnsAreClean()
    ensures Writable(Bare("level")) && Writable(Bare("cpu")) && Writable(Bare("thread")) && Writable(Bare("file"))
  {
  }

  lemma TextColumnsAreClean()
    ensures Writable(Bare("line")) && Writable(Bare("function")) && Writable(Bare("message"))
  {
  }

  lemma HeaderIsGood()
    ensures GoodRow(HEADER)
  {
    TimeColumnsAreClean();
    OriginColumnsAreClean();
    TextColumnsAreClean();
  }

  lemma RowsAreGood(chosen: seq<Entry>, iso: nat -> string)
    requires forall e :: e in chosen ==> IsoIsClean(iso(e.tsNs))
    ensures GoodRows([HEADER] + RowsOf(chosen, iso))
  {
    var rows := RowsOf(chosen, iso);
    HeaderIsGood();
    forall i | 0 <= i < |rows| ensures GoodRow(rows[i]) {
      assert chosen[i] in chosen;
      RowIsGood(chosen[i], iso);
    }
    GoodAll([HEADER] + rows);
  }

  lemma GoodAll(rows: seq<seq<Cell>>)
    requires forall i :: 0 <= i < |rows| ==> GoodRow(rows[i])
    ensures GoodRows(rows)
  {
  }

  lemma WholeFileReads(rows: seq<seq<Cell>>)
    requires GoodRows(rows)
    ensures ReadFile(Lines(rows)) == Some(TextRows(rows))
    ensures |TextRows(rows)| == |rows| && forall i :: 0 <= i < |rows| ==> TextRows(rows)[i] == Texts(rows[i])
  {
    LinesRead(rows, "", []);
    assert Lines(rows) + "" == Lines(rows) && TextRows(rows) + [] == TextRows(rows);
    TextRowsAt(rows);
  }

  lemma {:induction false} TextRowsAt(rows: seq<seq<Cell>>)
    ensures |TextRows(rows)| == |rows| && forall i :: 0 <= i < |rows| ==> TextRows(rows)[i] == Texts(rows[i])
    decreases |rows|
  {
    if rows != [] { TextRowsAt(rows[..|rows| - 1]); }
  }

  // ----- The loops that write the file ---------------------------------------------------------

  lemma DoubledFirst(s: string)
    requires s != []
    ensures Doubled(s) == Doubled([s[0]]) + Doubled(s[1..])
  {
  }

  lemma {:induction false} DoubledAppend(s: string, c: char)
    ensures Doubled(s + [c]) == Doubled(s) + Doubled([c])
  {
    if s == [] {
      assert s + [c] == [c];
    } else {
      DoubledAppend(s[1..], c);
      assert (s + [c])[1..] == s[1..] + [c];
      DoubledFirst(s);
      DoubledFirst(s + [c]);
      hide Doubled;
      Regroup(Doubled([s[0]]), Doubled(s[1..]), Doubled([c]));
    }
  }

  /** One field in quotes, its own quotes doubled. */
  method WriteQuoted(s: string) returns (r: string)
    ensures r == Show(Quoted(s))
  {
    r := ['"'];
    for i := 0 to |s|
      invariant r == ['"'] + Doubled(s[..i])
    {
      DoubledAppend(s[..i], s[i]);
      assert s[..i + 1] == s[..i] + [s[i]];
      if s[i] == '"' { r := r + ['"', '"']; } else { r := r + [s[i]]; }
    }
    assert s[..|s|] == s;
    r := r + ['"'];
  }

  function Item(c: Cell): string { Show(c) + "," }

  /** Cells already written, each with its comma. */
  function Joined(cells: seq<Cell>): string {
    if cells == [] then "" else Item(cells[0]) + Joined(cells[1..])
  }

  lemma {:induction false} JoinedStep(cells: seq<Cell>, c: Cell)
    ensures Joined(cells + [c]) == Joined(cells) + Item(c)
    decreases |cells|
  {
    if cells == [] {
      assert cells + [c] == [c];
      Empty(Item(c));
    } else {
      assert (cells + [c])[1..] == cells[1..] + [c];
      JoinedStep(cells[1..], c);
      Regroup(Item(cells[0]), Joined(cells[1..]), Item(c));
    }
  }

  lemma LineMore(cells: seq<Cell>, last: Cell)
    requires cells != []
    ensures Line(cells + [last]) == Show(cells[0]) + ("," + Line(cells[1..] + [last]))
  {
    assert (cells + [last])[1..] == cells[1..] + [last];
  }

  lemma Chain(a: string, b: string, c: string, d: string)
    ensures (a + b + c) + d == a + (b + (c + d))
  {
    Regroup(a + b, c, d);
    Regroup(a, b, c + d);
  }

  lemma {:induction false} LineOfJoined(cells: seq<Cell>, last: Cell)
    ensures Line(cells + [last]) == Joined(cells) + (Show(last) + "\n")
    decreases |cells|
  {
    if cells == [] {
      assert cells + [last] == [last];
      Empty(Show(last) + "\n");
    } else {
      LineMore(cells, last);
      LineOfJoined(cells[1..], last);
      Chain(Show(cells[0]), ",", Joined(cells[1..]), Show(last) + "\n");
    }
  }

  method WriteCell(c: Cell) returns (r: string)
    ensures r == Show(c)
  {
    match c {
      case Bare(t) => r := t;
      case Quoted(t) => r := WriteQuoted(t);
    }
  }

  method PutCell(text: string, c: Cell, ghost start: string, ghost done: seq<Cell>) returns (r: string)
    requires text == start + Joined(done)
    ensures r == start + Joined(done + [c])
  {
    var shown := WriteCell(c);
    JoinedStep(done, c);
    Regroup(start, Joined(done), Item(c));
    r := text + (shown + ",");
  }

  /** The cells one after the other, each but the last followed by a comma. */
  method WriteLine(text: string, cells: seq<Cell>) returns (r: string)
    requires cells != []
    ensures r == text + Line(cells)
  {
    hide Joined, Line, Show;
    var n := |cells| - 1;
    r := text;
    Empty(text);
    for i := 0 to n
      invariant r == text + Joined(cells[..i])
    {
      r := PutCell(r, cells[i], text, cells[..i]);
      assert cells[..i + 1] == cells[..i] + [cells[i]];
    }
    var shown := WriteCell(cells[n]);
    LineOfJoined(cells[..n], cells[n]);
    assert cells == cells[..n] + [cells[n]];
    Regroup(text, Joined(cells[..n]), shown + "\n");
    r := r + (shown + "\n");
  }

  lemma Empty(text: string)
    ensures text + Joined([]) == text && Joined([]) + text == text
  {
  }

  /** A plain search for a non-empty filter text. */
  method Find(s: string, part: string) returns (found: bool)
    ensures found <==> Contains(s, part)
  {
    if part == "" { return true; }
    var i := 0;
    while i + |part| <= |s|
      invariant i >= 0 && forall k: nat :: k < i ==> !PartAt(s, k, part)
      decreases |s| - i
    {
      if s[i..i + |part|] == part {
        assert PartAt(s, i, part);
        return true;
      }
      i := i + 1;
    }
    found := false;
  }

  lemma LinesMore(rows: seq<seq<Cell>>, row: seq<Cell>)
    ensures Lines(rows + [row]) == Lines(rows) + Line(row)
  {
    assert (rows + [row])[..|rows|] == rows;
  }

  lemma SelectedMore(entries: seq<Entry>, n: nat, sel: Selection)
    requires n < |entries|
    ensures Selected(entries[..n + 1], sel)
         == Selected(entries[..n], sel) + if Passes(entries[n], sel) then [entries[n]] else []
  {
    assert entries[..n + 1][..n] == entries[..n];
  }

  lemma RowsMore(header: seq<Cell>, chosen: seq<Entry>, e: Entry, iso: nat -> string)
    ensures Lines([header] + RowsOf(chosen + [e], iso)) == Lines([header] + RowsOf(chosen, iso)) + Line(RowOf(e, iso))
  {
    var rows := [header] + RowsOf(chosen, iso);
    assert [header] + RowsOf(chosen + [e], iso) == rows + [RowOf(e, iso)];
    LinesMore(rows, RowOf(e, iso));
  }

  lemma HeaderOnly(header: seq<Cell>, iso: nat -> string)
    ensures Lines([header] + RowsOf([], iso)) == Line(header)
  {
    assert [header] + RowsOf([], iso) == [] + [header];
    LinesMore([], header);
  }

  method WriteEntries(entries: seq<Entry>, sel: Selection, iso: nat -> string) returns (text: string, written: nat)
    ensures text == Exported(entries, sel, iso) && written == |Selected(entries, sel)|
  {
    HeaderOnly(HEADER, iso);
    text, written := Line(HEADER), 0;
    for i := 0 to |entries|
      invariant text == Exported(entries[..i], sel, iso) && written == |Selected(entries[..i], sel)|
    {
      var e := entries[i];
      ghost var chosen := Selected(entries[..i], sel);
      SelectedMore(entries, i, sel);
      assert chosen + [] == chosen;
      if e.tsNs < sel.tsMin || e.tsNs > sel.tsMax { continue; }
      if !LevelOn(sel.levelMask, e.level) { continue; }
      var found := Find(e.message, sel.filter);
      if !found { continue; }
      text := WriteLine(text, RowOf(e, iso));
      RowsMore(HEADER, chosen, e, iso);
      written := written + 1;
    }
    assert entries[..|entries|] == entries;
  }

  /** The export of a store; `opens` says whether the file could be created. */
  method ExportCSV(store: LogStore, path: string, opens: bool, sel: Selection, iso: nat -> string)
    returns (ok: bool, text: string, written: nat)
    requires store.Valid()
    ensures ok <==> path != "" && opens
    ensures ok ==> text == Exported(store.entries, sel, iso) && written == |Selected(store.entries, sel)|
    ensures Sorted(Selected(store.entries, sel))
  {
    SelectedInOrder(store.entries, sel);
    if path == "" || !opens { return false, "", 0; }
    text, written := WriteEntries(store.entries, sel, iso);
    ok := true;
  }
}
