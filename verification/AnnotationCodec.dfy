/**
 Printing annotations as JSON records and reading them back.
 */
module AnnotationCodec {
  import opened Options
  import opened JsonEscape
  import opened JsonLookup
  import opened Numerals

  const KINDS := 5
  const RECORD_ROOM := 2047   // characters that fit the record buffer
  const MARKER_ROOM := 127    // characters that fit the delete-marker buffer

  datatype Annotation = Annotation(
    id: string, timestamp: real, title: string, description: string, kind: int,
    createdAt: string, createdBy: string, deleted: bool)

  // ----- Reading values --------------------------------------------------------------

  function SkipBlanks(p: string): (r: string)
    ensures |r| <= |p|
  {
    if p != [] && (p[0] == ' ' || p[0] == '\t') then SkipBlanks(p[1..]) else p
  }

  /** The raw text up to the closing quote, backslash pairs kept. */
  function Quoted(p: string): string {
    if p == [] || p[0] == '"' then []
    else if p[0] == '\\' && |p| >= 2 then p[..2] + Quoted(p[2..])
    else [p[0]] + Quoted(p[1..])
  }

  function StringAt(p: string): string {
    var v := SkipBlanks(p);
    if v == [] || v[0] != '"' then "" else Unescape(Quoted(v[1..]))
  }

  function DigitsFrom(acc: nat, p: string): nat
    decreases |p|
  {
    if p != [] && Digit(p[0]) then DigitsFrom(acc * 10 + (p[0] as int - '0' as int), p[1..]) else acc
  }

  function IntAt(p: string): int {
    var v := SkipBlanks(p);
    if v != [] && v[0] == '-' then 0 - DigitsFrom(0, v[1..]) else DigitsFrom(0, v)
  }

  function ExtractString(json: string, key: string): string {
    match After(json, Pattern(key)) case None => "" case Some(p) => StringAt(p)
  }

  function ExtractInt(json: string, key: string): int {
    match After(json, Pattern(key)) case None => 0 case Some(p) => IntAt(p)
  }

  predicate ExtractBool(json: string, key: string) {
    match After(json, Pattern(key)) case None => false case Some(p) => "true" <= SkipBlanks(p)
  }

  // ----- Printing ----------------------------------------------------------------------

  function Signed(n: int): string { if n < 0 then "-" + Decimal(-n) else Decimal(n) }

  /** Conversion to a 64-bit integer drops the fraction. */
  function Truncated(x: real): int { if x >= 0.0 then x.Floor else -((-x).Floor) }

  function Micros(timestamp: real): int { Truncated(timestamp * 1000000.0) }

  function Seconds(micros: int): real { micros as real / 1000000.0 }

  /** A string as C sees it. */
  function CStr(s: string): (r: string)
    ensures '\0' !in r && ('\0' !in s ==> r == s)
  {
    if s == [] || s[0] == '\0' then [] else [s[0]] + CStr(s[1..])
  }

  function FieldsOf(a: Annotation): seq<Field> {
    [ Field("id", Text(CStr(a.id))),
      Field("version", Bare("1")),
      Field("timestamp_us", Bare(Signed(Micros(a.timestamp)))),
      Field("title", Text(Escape(a.title))),
      Field("description", Text(Escape(a.description))),
      Field("created_at", Text(CStr(a.createdAt))),
      Field("created_by", Text(CStr(a.createdBy))),
      Field("type", Bare(Signed(a.kind))) ]
  }

  function Clip(s: string, room: nat): string { if |s| <= room then s else s[..room] }

  function Printed(a: Annotation): string { Record(FieldsOf(a)) }

  function Serialize(a: Annotation): string { Clip(Printed(a), RECORD_ROOM) }

  function MarkerFields(id: string): seq<Field> {
    [Field("id", Text(CStr(id))), Field("deleted", Bare("true"))]
  }

  function SerializeMarker(id: string): string { Clip(Record(MarkerFields(id)), MARKER_ROOM) }

  // ----- Decoding a drained item ---------------------------------------------------------

  datatype Item = Item(key: string, json: string)

  datatype Op = Ignore | Mark(id: string) | Upsert(record: Annotation)

  function DecodeJson(json: string): Op {
    var id := ExtractString(json, "id");
    if id == "" then Ignore
    else if ExtractBool(json, "deleted") then Mark(id)
    else
      var kind := ExtractInt(json, "type");
      Upsert(Annotation(id, Seconds(ExtractInt(json, "timestamp_us")),
                        ExtractString(json, "title"), ExtractString(json, "description"),
                        if kind < 0 || kind >= KINDS then 0 else kind,
                        ExtractString(json, "created_at"), ExtractString(json, "created_by"), false))
  }

  function Decode(item: Item): Op {
    if item.json == "" then (if item.key == "" then Ignore else Mark(item.key)) else DecodeJson(CStr(item.json))
  }

  // ----- Values read back --------------------------------------------------------------------

  lemma {:induction false} QuotedReads(e: string, rest: string)
    requires WellEscaped(e)
    ensures Quoted(e + "\"" + rest) == e
  {
    var t := e + "\"" + rest;
    if e == [] {
    } else if e[0] == '\\' && |e| >= 2 && WellEscaped(e[2..]) {
      assert t[2..] == e[2..] + "\"" + rest && t[..2] == e[..2];
      QuotedReads(e[2..], rest);
    } else {
      assert t[1..] == e[1..] + "\"" + rest;
      QuotedReads(e[1..], rest);
    }
  }

  lemma TextReads(raw: string, rest: string)
    requires WellEscaped(raw)
    ensures StringAt(Show(Text(raw)) + rest) == Unescape(raw)
  {
    hide StringAt, Unescape, Quoted, WellEscaped;
    ShownText(raw, rest);
    QuoteStarts(raw + "\"" + rest);
    QuotedReads(raw, rest);
  }

  lemma ShownText(raw: string, rest: string)
    ensures Show(Text(raw)) + rest == ['"'] + (raw + "\"" + rest)
  {
  }

  lemma QuoteStarts(body: string)
    ensures StringAt(['"'] + body) == Unescape(Quoted(body))
  {
    assert (['"'] + body)[1..] == body;
  }

  function Scale(n: nat): nat { if n < 10 then 10 else 10 * Scale(n / 10) }

  lemma {:induction false} DecimalScale(n: nat, acc: nat, rest: string)
    ensures DigitsFrom(acc, Decimal(n) + rest) == DigitsFrom(acc * Scale(n) + n, rest)
    decreases n
  {
    var last := [('0' as int + n % 10) as char];
    assert (last + rest)[1..] == rest;
    if n >= 10 {
      assert Decimal(n) + rest == Decimal(n / 10) + (last + rest);
      DecimalScale(n / 10, acc, last + rest);
      Regroup(acc, Scale(n / 10), n);
    }
  }

  lemma Regroup(acc: nat, scale: nat, n: nat)
    ensures (acc * scale + n / 10) * 10 + n % 10 == acc * (10 * scale) + n
  {
  }

  lemma NumberReads(n: int, rest: string)
    requires rest == [] || !Digit(rest[0])
    ensures IntAt(Signed(n) + rest) == n
  {
    hide DigitsFrom, Decimal, Scale;
    if n < 0 {
      DigitsRead(-n, rest);
      MinusFirst(Decimal(-n) + rest);
      assert Signed(n) + rest == "-" + (Decimal(-n) + rest);
    } else {
      DigitsRead(n, rest);
      StartsWithDigit(n, rest);
    }
  }

  lemma MinusFirst(s: string)
    ensures IntAt("-" + s) == 0 - DigitsFrom(0, s)
  {
    hide DigitsFrom;
    assert ("-" + s)[1..] == s;
    assert SkipBlanks("-" + s) == "-" + s;
  }

  lemma DigitsRead(n: nat, rest: string)
    requires rest == [] || !Digit(rest[0])
    ensures DigitsFrom(0, Decimal(n) + rest) == n
  {
    hide Decimal;
    DecimalScale(n, 0, rest);
  }

  lemma StartsWithDigit(n: nat, rest: string)
    ensures var s := Decimal(n) + rest; s != [] && Digit(s[0]) && SkipBlanks(s) == s
  {
    var s := Decimal(n);
    assert s[0] in s;
  }

  // ----- Fields read back -----------------------------------------------------------------------

  /** `fields[i]` is the first field with its key. */
  ghost predicate FirstAt(fields: seq<Field>, i: nat) {
    i < |fields| && forall j :: 0 <= j < i ==> fields[j].key != fields[i].key
  }

  lemma {:induction false} LookupFinds(fields: seq<Field>, i: nat)
    requires FirstAt(fields, i)
    ensures Lookup(fields, fields[i].key) == Some(Show(fields[i].value) + Rest(fields[i..]))
    decreases i
  {
    if i == 0 {
      assert fields[0..] == fields;
    } else {
      assert fields[0].key != fields[i].key;
      assert fields[1..][i - 1..] == fields[i..];
      LookupFinds(fields[1..], i - 1);
    }
  }

  lemma {:induction false} LookupMisses(fields: seq<Field>, key: string)
    requires fields != [] && forall f :: f in fields ==> f.key != key
    ensures Lookup(fields, key) == None
    decreases |fields|
  {
    assert fields[0] in fields;
    if |fields| > 1 { LookupMisses(fields[1..], key); }
  }

  lemma TextField(fields: seq<Field>, i: nat)
    requires AllFields(fields) && FirstAt(fields, i) && fields[i].value.Text?
    ensures ExtractString(Record(fields), fields[i].key) == Unescape(fields[i].value.raw)
  {
    var f := fields[i];
    assert f in fields && IsField(f);
    FirstMatchIsStructural(fields, f.key);
    LookupFinds(fields, i);
    TextReads(f.value.raw, Rest(fields[i..]));
  }

  lemma NumberField(fields: seq<Field>, i: nat, n: int)
    requires AllFields(fields) && FirstAt(fields, i) && fields[i].value == Bare(Signed(n))
    ensures ExtractInt(Record(fields), fields[i].key) == n
  {
    var f := fields[i];
    assert f in fields && IsField(f);
    FirstMatchIsStructural(fields, f.key);
    LookupFinds(fields, i);
    NumberReads(n, Rest(fields[i..]));
  }

  lemma BoolField(fields: seq<Field>, i: nat, b: bool)
    requires AllFields(fields) && FirstAt(fields, i) && fields[i].value == Bare(if b then "true" else "false")
    ensures ExtractBool(Record(fields), fields[i].key) <==> b
  {
    var f := fields[i];
    assert f in fields && IsField(f);
    FirstMatchIsStructural(fields, f.key);
    LookupFinds(fields, i);
    BoolReads(b, Rest(fields[i..]));
  }

  lemma BoolReads(b: bool, rest: string)
    ensures "true" <= SkipBlanks((if b then "true" else "false") + rest) <==> b
  {
    var p := (if b then "true" else "false") + rest;
    assert SkipBlanks(p) == p;
    assert p[0] == if b then 't' else 'f';
  }

  lemma NoField(fields: seq<Field>, key: string)
    requires AllFields(fields) && IsKey(key) && forall f :: f in fields ==> f.key != key
    ensures !ExtractBool(Record(fields), key)
  {
    FirstMatchIsStructural(fields, key);
    LookupMisses(fields, key);
  }

  // ----- The round trip --------------------------------------------------------------------------

  /** What the store needs of an annotation it prints: fields it does not escape are plain. */
  ghost predicate Spelled(a: Annotation) {
    Plain(a.id) && a.id != "" && Plain(a.createdAt) && Plain(a.createdBy)
  }

  ghost predicate Printable(a: Annotation) { Spelled(a) && 0 <= a.kind < KINDS }

  lemma PlainText(s: string)
    requires Plain(s)
    ensures IsValue(Text(CStr(s))) && CStr(s) == s && Unescape(s) == s
  {
    PlainIsWellEscaped(s);
  }

  lemma SignedIsBare(n: int)
    ensures IsValue(Bare(Signed(n)))
  {
    if n < 0 { assert '"' !in Decimal(-n); } else { assert '"' !in Decimal(n); }
  }

  lemma KeysAreKeys()
    ensures IsKey("id") && IsKey("version") && IsKey("timestamp_us") && IsKey("title") && IsKey("description")
    ensures IsKey("created_at") && IsKey("created_by") && IsKey("type") && IsKey("deleted")
  {
  }

  lemma FieldsAreSound(a: Annotation)
    requires Spelled(a)
    ensures AllFields(FieldsOf(a))
  {
    hide IsKey, WellEscaped, Escape, CStr, Signed, Micros, Plain;
    KeysAreKeys();
    PlainText(a.id);
    PlainText(a.createdAt);
    PlainText(a.createdBy);
    EscapeIsWellEscaped(a.title);
    EscapeIsWellEscaped(a.description);
    SignedIsBare(Micros(a.timestamp));
    SignedIsBare(a.kind);
  }

  /** What a printed annotation reads back as. */
  function Reparsed(a: Annotation): Annotation {
    a.(timestamp := Seconds(Micros(a.timestamp)), title := Reread(a.title), description := Reread(a.description),
       kind := if 0 <= a.kind < KINDS then a.kind else 0, deleted := false)
  }

  const KEYS := ["id", "version", "timestamp_us", "title", "description", "created_at", "created_by", "type"]

  lemma KeysAreDistinct()
    ensures forall i, j :: 0 <= i < j < 8 ==> KEYS[i] != KEYS[j]
    ensures "deleted" !in KEYS
  {
    assert KEYS[5][8] != KEYS[6][8];
    assert KEYS[1][0] != "deleted"[0];
  }

  lemma KeysDiffer(a: Annotation)
    ensures forall i :: 0 <= i < 8 ==> FirstAt(FieldsOf(a), i)
    ensures forall f :: f in FieldsOf(a) ==> f.key != "deleted"
  {
    KeysAreDistinct();
    var fields := FieldsOf(a);
    assert forall i :: 0 <= i < 8 ==> fields[i].key == KEYS[i];
    assert |fields| == 8;
  }

  lemma PlainField(fields: seq<Field>, i: nat, s: string)
    requires AllFields(fields) && FirstAt(fields, i) && fields[i].value == Text(CStr(s)) && Plain(s)
    ensures ExtractString(Record(fields), fields[i].key) == s
  {
    TextField(fields, i);
    PlainText(s);
  }

  lemma EscapedField(fields: seq<Field>, i: nat, s: string)
    requires AllFields(fields) && FirstAt(fields, i) && fields[i].value == Text(Escape(s))
    ensures ExtractString(Record(fields), fields[i].key) == Reread(s)
  {
    TextField(fields, i);
    UnescapeEscape(s);
  }

  lemma PlainRead(a: Annotation, i: nat, key: string, s: string)
    requires Spelled(a) && i < 8 && FieldsOf(a)[i] == Field(key, Text(CStr(s))) && Plain(s)
    ensures ExtractString(Printed(a), key) == s
  {
    FieldsAreSound(a);
    KeysDiffer(a);
    PlainField(FieldsOf(a), i, s);
  }

  lemma EscapedRead(a: Annotation, i: nat, key: string, s: string)
    requires Spelled(a) && i < 8 && FieldsOf(a)[i] == Field(key, Text(Escape(s)))
    ensures ExtractString(Printed(a), key) == Reread(s)
  {
    FieldsAreSound(a);
    KeysDiffer(a);
    EscapedField(FieldsOf(a), i, s);
  }

  lemma NumberFields(a: Annotation)
    ensures |FieldsOf(a)| == 8
    ensures FieldsOf(a)[2] == Field("timestamp_us", Bare(Signed(Micros(a.timestamp))))
    ensures FieldsOf(a)[7] == Field("type", Bare(Signed(a.kind)))
  {
  }

  lemma NumbersRead(a: Annotation)
    requires Spelled(a)
    ensures ExtractInt(Printed(a), "timestamp_us") == Micros(a.timestamp)
    ensures ExtractInt(Printed(a), "type") == a.kind
    ensures !ExtractBool(Printed(a), "deleted")
  {
    FieldsAreSound(a);
    KeysAreKeys();
    KeysDiffer(a);
    NumberFields(a);
    hide FieldsOf, AllFields, FirstAt, Record, ExtractInt, ExtractBool, IsKey, Signed, Micros;
    NumberField(FieldsOf(a), 2, Micros(a.timestamp));
    NumberField(FieldsOf(a), 7, a.kind);
    NoField(FieldsOf(a), "deleted");
  }

  lemma TextFields(a: Annotation)
    ensures FieldsOf(a)[0] == Field("id", Text(CStr(a.id)))
    ensures FieldsOf(a)[3] == Field("title", Text(Escape(a.title)))
    ensures FieldsOf(a)[4] == Field("description", Text(Escape(a.description)))
    ensures FieldsOf(a)[5] == Field("created_at", Text(CStr(a.createdAt)))
    ensures FieldsOf(a)[6] == Field("created_by", Text(CStr(a.createdBy)))
  {
    hide CStr, Escape, Signed, Micros;
  }

  lemma TextsRead(a: Annotation)
    requires Spelled(a)
    ensures ExtractString(Printed(a), "id") == a.id
    ensures ExtractString(Printed(a), "title") == Reread(a.title)
    ensures ExtractString(Printed(a), "description") == Reread(a.description)
    ensures ExtractString(Printed(a), "created_at") == a.createdAt
    ensures ExtractString(Printed(a), "created_by") == a.createdBy
  {
    TextFields(a);
    NumberFields(a);
    hide FieldsOf, Printed, ExtractString, Reread, CStr, Escape, Plain, Signed, Micros;
    PlainRead(a, 0, "id", a.id);
    EscapedRead(a, 3, "title", a.title);
    EscapedRead(a, 4, "description", a.description);
    PlainRead(a, 5, "created_at", a.createdAt);
    PlainRead(a, 6, "created_by", a.createdBy);
  }

  lemma PrintedDecodes(a: Annotation)
    requires Spelled(a)
    ensures DecodeJson(Printed(a)) == Upsert(Reparsed(a))
  {
    hide Printed, ExtractString, ExtractInt, ExtractBool, Reread, Seconds, Micros;
    TextsRead(a);
    NumbersRead(a);
  }

  lemma MicrosClose(t: real)
    ensures -0.000001 < Seconds(Micros(t)) - t < 0.000001
    ensures if t >= 0.0 then 0.0 <= Seconds(Micros(t)) <= t else t <= Seconds(Micros(t)) <= 0.0
    ensures Micros(Seconds(Micros(t))) == Micros(t)
  {
    var m := Micros(t);
    assert Seconds(m) * 1000000.0 == m as real;
  }

  // ----- Odd items --------------------------------------------------------------------------------

  /** Only blanks and tabs are skipped, and all of them. */
  lemma {:induction false} BlanksSkipped(p: string) returns (k: nat)
    ensures k <= |p| && SkipBlanks(p) == p[k..] && (k < |p| ==> p[k] != ' ' && p[k] != '\t')
    ensures forall i :: 0 <= i < k ==> p[i] == ' ' || p[i] == '\t'
    decreases |p|
  {
    k := 0;
    if p != [] && (p[0] == ' ' || p[0] == '\t') {
      k := BlanksSkipped(p[1..]);
      k := k + 1;
    }
  }

  /** An item without a payload deletes what its key names, and a payload without an id is ignored. */
  lemma OddItems(key: string, json: string)
    ensures Decode(Item(key, "")) == if key == "" then Ignore else Mark(key)
    ensures json != "" && After(CStr(json), "\"id\":").None? ==> Decode(Item(key, json)) == Ignore
  {
    assert Pattern("id") == "\"id\":";
  }

  /** What does not fit the buffers of 2048 and 128 bytes is cut off. */
  lemma CutOff(a: Annotation, id: string)
    ensures Serialize(a) <= Printed(a) && |Serialize(a)| == if |Printed(a)| < 2048 then |Printed(a)| else 2047
    ensures var m := Record(MarkerFields(id));
      SerializeMarker(id) <= m && |SerializeMarker(id)| == if |m| < 128 then |m| else 127
  {
  }

  // ----- The text of a record ---------------------------------------------------------------------

  lemma TextTail(key: string, raw: string, more: seq<Field>)
    requires more != []
    ensures Tail([Field(key, Text(raw))] + more) == "\"" + key + "\":\"" + (raw + ("\"," + Tail(more)))
  {
    var fields := [Field(key, Text(raw))] + more;
    assert fields[1..] == more;
    hide Tail;
    assert "\":" + "\"" == "\":\"" && "\"" + "," == "\",";
    TextParts(key, raw, Tail(more));
  }

  lemma TextParts(key: string, raw: string, rest: string)
    ensures ("\"" + key + "\":") + ("\"" + raw + "\"") + ("," + rest)
         == "\"" + key + "\":\"" + (raw + ("\"," + rest))
  {
  }

  lemma BareTail(key: string, token: string, more: seq<Field>)
    ensures Tail([Field(key, Bare(token))] + more)
         == "\"" + key + "\":" + (token + (if more == [] then "}" else "," + Tail(more)))
  {
    var fields := [Field(key, Bare(token))] + more;
    assert fields[1..] == more;
  }

  lemma FrontKeys()
    ensures "\"" + "id" + "\":\"" == "\"id\":\"" && "\"" + "version" + "\":" == "\"version\":"
    ensures "\"" + "timestamp_us" + "\":" == "\"timestamp_us\":" && "\"" + "title" + "\":\"" == "\"title\":\""
  {
  }

  lemma BackKeys()
    ensures "\"" + "description" + "\":\"" == "\"description\":\"" && "\"" + "type" + "\":" == "\"type\":"
    ensures "\"" + "created_at" + "\":\"" == "\"created_at\":\""
    ensures "\"" + "created_by" + "\":\"" == "\"created_by\":\""
  {
  }

  /** The fields from the description on. */
  function BackFields(description: string, createdAt: string, createdBy: string, kind: string): seq<Field> {
    [Field("description", Text(description)), Field("created_at", Text(createdAt)),
     Field("created_by", Text(createdBy)), Field("type", Bare(kind))]
  }

  lemma FrontText(id: string, us: string, title: string, back: seq<Field>)
    requires back != []
    ensures var fields := [Field("id", Text(id)), Field("version", Bare("1")), Field("timestamp_us", Bare(us)),
                           Field("title", Text(title))] + back;
      Tail(fields) ==
        "\"id\":\"" + (id + ("\"," +
        ("\"version\":" + ("1" + ("," +
        ("\"timestamp_us\":" + (us + ("," +
        ("\"title\":\"" + (title + ("\"," + Tail(back))))))))))))
  {
    hide Tail;
    var f4 := [Field("title", Text(title))] + back;
    var f3 := [Field("timestamp_us", Bare(us))] + f4;
    var f2 := [Field("version", Bare("1"))] + f3;
    FrontKeys();
    TextTail("title", title, back);
    BareTail("timestamp_us", us, f4);
    BareTail("version", "1", f3);
    TextTail("id", id, f2);
    assert [Field("id", Text(id)), Field("version", Bare("1")), Field("timestamp_us", Bare(us)),
            Field("title", Text(title))] + back == [Field("id", Text(id))] + f2;
  }

  lemma BackText(description: string, createdAt: string, createdBy: string, kind: string)
    ensures Tail(BackFields(description, createdAt, createdBy, kind)) ==
        "\"description\":\"" + (description + ("\"," +
        ("\"created_at\":\"" + (createdAt + ("\"," +
        ("\"created_by\":\"" + (createdBy + ("\"," +
        ("\"type\":" + (kind + "}"))))))))))
  {
    hide Tail;
    var f4: seq<Field> := [Field("type", Bare(kind))] + [];
    var f3 := [Field("created_by", Text(createdBy))] + f4;
    var f2 := [Field("created_at", Text(createdAt))] + f3;
    BackKeys();
    BareTail("type", kind, []);
    TextTail("created_by", createdBy, f4);
    TextTail("created_at", createdAt, f3);
    TextTail("description", description, f2);
    assert BackFields(description, createdAt, createdBy, kind) == [Field("description", Text(description))] + f2;
  }

  /** The record as it stands in the topic. */
  lemma RecordText(a: Annotation)
    ensures Printed(a) ==
      "{" + ("\"id\":\"" + (CStr(a.id) + ("\"," +
        ("\"version\":" + ("1" + ("," +
        ("\"timestamp_us\":" + (Signed(Micros(a.timestamp)) + ("," +
        ("\"title\":\"" + (Escape(a.title) + ("\"," +
        ("\"description\":\"" + (Escape(a.description) + ("\"," +
        ("\"created_at\":\"" + (CStr(a.createdAt) + ("\"," +
        ("\"created_by\":\"" + (CStr(a.createdBy) + ("\"," +
        ("\"type\":" + (Signed(a.kind) + "}")))))))))))))))))))))))
  {
    hide Tail, CStr, Escape, Signed, Micros;
    var us, kind := Signed(Micros(a.timestamp)), Signed(a.kind);
    var back := BackFields(Escape(a.description), CStr(a.createdAt), CStr(a.createdBy), kind);
    FrontText(CStr(a.id), us, Escape(a.title), back);
    BackText(Escape(a.description), CStr(a.createdAt), CStr(a.createdBy), kind);
    assert FieldsOf(a) == [Field("id", Text(CStr(a.id))), Field("version", Bare("1")), Field("timestamp_us", Bare(us)),
                           Field("title", Text(Escape(a.title)))] + back;
  }

  /** And a delete marker. */
  lemma MarkerText(id: string)
    ensures Record(MarkerFields(id)) ==
      "{" + ("\"id\":\"" + (CStr(id) + ("\"," + ("\"deleted\":" + ("true" + "}")))))
  {
    var f := MarkerFields(id);
    hide Tail, CStr;
    TextTail("id", CStr(id), f[1..]);
    BareTail("deleted", "true", []);
    assert f == [f[0]] + f[1..] && f[1..] == [f[1]] + [];
  }

  // ----- C strings -----------------------------------------------------------------------------------

  lemma {:induction false} NoNulInTail(fields: seq<Field>)
    requires fields != [] && forall f :: f in fields ==> '\0' !in f.key && '\0' !in Show(f.value)
    ensures '\0' !in Tail(fields)
    decreases |fields|
  {
    assert fields[0] in fields;
    if |fields| > 1 { NoNulInTail(fields[1..]); }
  }

  lemma PrintedHasNoNul(a: Annotation)
    ensures '\0' !in Printed(a)
  {
    hide Escape, CStr, Signed, Micros, WellEscaped, Tail;
    EscapeIsWellEscaped(a.title);
    EscapeIsWellEscaped(a.description);
    KeysHaveNoNul();
    SignedHasNoNul(Micros(a.timestamp));
    SignedHasNoNul(a.kind);
    NoNulInTail(FieldsOf(a));
  }

  lemma SignedHasNoNul(n: int)
    ensures '\0' !in Signed(n)
  {
  }

  lemma KeysHaveNoNul()
    ensures '\0' !in "id" && '\0' !in "version" && '\0' !in "timestamp_us" && '\0' !in "title" && '\0' !in "description"
    ensures '\0' !in "created_at" && '\0' !in "created_by" && '\0' !in "type" && '\0' !in "1"
  {
  }

  /** The main round trip: a record that fits its buffer decodes to the same annotation, its
      timestamp to under a microsecond; title and description survive exactly when they hold
      no control character other than newline, return and tab. */
  lemma RecordRoundTrip(a: Annotation, key: string)
    requires Spelled(a) && |Printed(a)| <= RECORD_ROOM
    ensures var op := Decode(Item(key, Serialize(a)));
      && op == Upsert(Reparsed(a))
      && op.record.id == a.id && op.record.kind == (if 0 <= a.kind < 5 then a.kind else 0)
      && op.record.createdAt == a.createdAt && op.record.createdBy == a.createdBy
      && (op.record.title == a.title <==> Faithful(a.title))
      && (op.record.description == a.description <==> Faithful(a.description))
      && -0.000001 < op.record.timestamp - a.timestamp < 0.000001
  {
    PrintedHasNoNul(a);
    PrintedDecodes(a);
    MicrosClose(a.timestamp);
    RereadIsIdentityIffFaithful(a.title);
    RereadIsIdentityIffFaithful(a.description);
  }

  lemma {:induction false} AfterNoneInPrefix(s: string, n: nat, pat: string)
    requires pat != [] && n <= |s| && After(s, pat).None?
    ensures After(s[..n], pat).None?
  {
    if n > 0 {
      assert s[..n][1..] == s[1..][..n - 1];
      AfterNoneInPrefix(s[1..], n - 1, pat);
      assert !(pat <= s[..n]);
    }
  }

  lemma CutIsNoDeletion(a: Annotation)
    requires Spelled(a)
    ensures !ExtractBool(Serialize(a), "deleted")
  {
    FieldsAreSound(a);
    KeysAreKeys();
    KeysDiffer(a);
    FirstMatchIsStructural(FieldsOf(a), "deleted");
    LookupMisses(FieldsOf(a), "deleted");
    AfterNoneInPrefix(Printed(a), |Serialize(a)|, Pattern("deleted"));
    assert Printed(a)[..|Serialize(a)|] == Serialize(a);
  }

  lemma AfterBrace(pat: string, rest: string)
    requires pat != [] && pat[0] != '{'
    ensures After("{" + (pat + rest), pat) == Some(rest)
  {
    var t := "{" + (pat + rest);
    assert t[0] == '{' && t[1..] == pat + rest;
  }

  lemma ClipKeepsFront(front: string, rest: string, room: nat)
    requires |front| <= room
    ensures Clip(front + rest, room) == front + Clip(rest, room - |front|)
  {
  }

  lemma CutKeepsId(a: Annotation)
    requires Spelled(a) && |a.id| <= RECORD_ROOM - 8
    ensures ExtractString(Serialize(a), "id") == a.id
  {
    hide StringAt, Unescape, Show, Pattern, After, Serialize, Plain, WellEscaped, CStr;
    var shown := Show(Text(a.id));
    var more := CutFront(a);
    PlainText(a.id);
    PatternQuoted("id");
    AfterBrace(Pattern("id"), shown + more);
    TextReads(a.id, more);
  }

  lemma PatternQuoted(key: string)
    ensures Pattern(key)[0] == '"'
  {
  }

  lemma FrontFirst(a: string, b: string, c: string)
    ensures "{" + a + b + c == "{" + (a + (b + c))
  {
  }

  /** The record starts with the id, whatever is cut off behind it. */
  lemma CutFront(a: Annotation) returns (more: string)
    requires Spelled(a) && |a.id| <= RECORD_ROOM - 8
    ensures Serialize(a) == "{" + (Pattern("id") + (Show(Text(a.id)) + more))
  {
    var shown, rest := Show(Text(a.id)), Rest(FieldsOf(a));
    var front := "{" + Pattern("id") + shown;
    PlainText(a.id);
    assert Printed(a) == front + rest by { FrontFirst(Pattern("id"), shown, rest); }
    hide Printed, Rest, Clip;
    ClipKeepsFront(front, rest, RECORD_ROOM);
    more := Clip(rest, RECORD_ROOM - |front|);
    FrontFirst(Pattern("id"), shown, more);
  }

  /** Even a record cut off at the end of the buffer is read as an update of its own
      annotation: never as a deletion, never under another id. */
  lemma CutRecordKeepsId(a: Annotation, key: string)
    requires Spelled(a) && |a.id| <= RECORD_ROOM - 8
    ensures var op := Decode(Item(key, Serialize(a))); op.Upsert? && op.record.id == a.id
  {
    PrintedHasNoNul(a);
    CutIsNoDeletion(a);
    CutKeepsId(a);
  }

  lemma {:induction false} AfterInPrefix(s: string, n: nat, pat: string)
    requires pat != [] && n <= |s| && After(s[..n], pat).Some?
    ensures |pat| <= n && After(s, pat).Some? && After(s[..n], pat).value <= After(s, pat).value
  {
    var t := s[..n];
    if pat <= t {
      assert pat <= s && t[|pat|..] <= s[|pat|..];
    } else {
      assert t[1..] == s[1..][..n - 1];
      AfterInPrefix(s[1..], n - 1, pat);
      assert !(pat <= s) by { if |pat| <= n { assert s[..|pat|] == t[..|pat|]; } }
    }
  }

  lemma {:induction false} QuotedOfCut(p: string, raw: string, rest: string)
    requires Plain(raw) && p <= raw + "\"" + rest
    ensures Quoted(p) <= raw
  {
    if raw == [] || p == [] {
    } else {
      assert p[0] == raw[0];
      assert raw[0] in raw;
      assert p[1..] <= raw[1..] + "\"" + rest by { assert (raw + "\"" + rest)[1..] == raw[1..] + "\"" + rest; }
      QuotedOfCut(p[1..], raw[1..], rest);
    }
  }

  lemma CutTextIsPlain(p: string, raw: string, rest: string)
    requires Plain(raw) && p <= Show(Text(raw)) + rest
    ensures Plain(StringAt(p))
  {
    if p != [] {
      assert p[0] == '"' && SkipBlanks(p) == p;
      assert (Show(Text(raw)) + rest)[1..] == raw + "\"" + rest;
      QuotedOfCut(p[1..], raw, rest);
      PlainIsWellEscaped(Quoted(p[1..]));
    }
  }

  lemma CutFieldIsPlain(fields: seq<Field>, i: nat, s: string, room: nat)
    requires AllFields(fields) && FirstAt(fields, i) && fields[i].value == Text(CStr(s)) && Plain(s)
    ensures Plain(ExtractString(Clip(Record(fields), room), fields[i].key))
  {
    var f := fields[i];
    assert f in fields && IsField(f);
    var full, cut := Record(fields), Clip(Record(fields), room);
    assert full[..|cut|] == cut;
    FirstMatchIsStructural(fields, f.key);
    LookupFinds(fields, i);
    if After(cut, Pattern(f.key)).Some? {
      AfterInPrefix(full, |cut|, Pattern(f.key));
      CutTextIsPlain(After(cut, Pattern(f.key)).value, s, Rest(fields[i..]));
    }
  }

  /** What stores print, cut or not, is an update that can be printed again. */
  lemma RecordStaysPrintable(a: Annotation, key: string)
    requires Printable(a) && |a.id| <= RECORD_ROOM - 8
    ensures var op := Decode(Item(key, Serialize(a)));
      op.Upsert? && op.record.id == a.id && Printable(op.record) && !op.record.deleted
  {
    CutRecordKeepsId(a, key);
    PrintedHasNoNul(a);
    CutRead(a, 5, "created_at", a.createdAt);
    CutRead(a, 6, "created_by", a.createdBy);
  }

  lemma CutRead(a: Annotation, i: nat, key: string, s: string)
    requires Spelled(a) && i < 8 && FieldsOf(a)[i] == Field(key, Text(CStr(s))) && Plain(s)
    ensures Plain(ExtractString(Serialize(a), key))
  {
    FieldsAreSound(a);
    KeysDiffer(a);
    CutFieldIsPlain(FieldsOf(a), i, s, RECORD_ROOM);
  }

  /** A delete marker that fits its buffer decodes to the deletion of its id. */
  lemma MarkerRoundTrip(id: string, key: string)
    requires Plain(id) && id != "" && |id| + 24 <= MARKER_ROOM
    ensures Decode(Item(key, SerializeMarker(id))) == Mark(id)
  {
    var fields := MarkerFields(id);
    KeysAreKeys();
    PlainText(id);
    NoNulInTail(fields);
    assert fields[1..] == [Field("deleted", Bare("true"))];
    assert |Tail(fields[1..])| == 15;
    assert |Rest(fields)| == 16 && |Show(fields[0].value)| == |id| + 2;
    assert "id"[0] != "deleted"[0];
    TextField(fields, 0);
    BoolField(fields, 1, true);
  }

  // ----- The extraction loops -----------------------------------------------------------------------

  method Skip(from: string) returns (p: string)
    ensures p == SkipBlanks(from)
  {
    p := from;
    while p != [] && (p[0] == ' ' || p[0] == '\t')
      invariant SkipBlanks(p) == SkipBlanks(from)
      decreases |p|
    {
      p := p[1..];
    }
  }

  lemma QuotedStep(p: string, n: nat)
    requires p != [] && p[0] != '"' && n == if p[0] == '\\' && |p| >= 2 then 2 else 1
    ensures Quoted(p) == p[..n] + Quoted(p[n..])
  {
  }

  method ReadQuoted(from: string) returns (val: string)
    ensures val == Quoted(from)
  {
    var p := from;
    val := "";
    while p != [] && p[0] != '"'
      invariant val + Quoted(p) == Quoted(from)
      decreases |p|
    {
      var n := if p[0] == '\\' && |p| >= 2 then 2 else 1;
      QuotedStep(p, n);
      val := val + p[..n];
      p := p[n..];
    }
    assert val + Quoted(p) == val;
  }

  method JsonExtractString(json: string, key: string) returns (r: string)
    ensures r == ExtractString(json, key)
  {
    var at := After(json, Pattern(key));
    if at.None? { return ""; }
    var p := Skip(at.value);
    if p == [] || p[0] != '"' { return ""; }
    var val := ReadQuoted(p[1..]);
    r := UnescapeText(val);
  }

  method JsonExtractInt64(json: string, key: string) returns (r: int)
    ensures r == ExtractInt(json, key)
  {
    var at := After(json, Pattern(key));
    if at.None? { return 0; }
    var p := Skip(at.value);
    var sign, val: nat := 1, 0;
    if p != [] && p[0] == '-' { sign, p := -1, p[1..]; }
    ghost var digits := p;
    while p != [] && Digit(p[0])
      invariant DigitsFrom(val, p) == DigitsFrom(0, digits)
      decreases |p|
    {
      val := val * 10 + (p[0] as int - '0' as int);
      p := p[1..];
    }
    r := sign * val;
  }

  method JsonExtractBool(json: string, key: string) returns (r: bool)
    ensures r == ExtractBool(json, key)
  {
    var at := After(json, Pattern(key));
    if at.None? { return false; }
    var p := Skip(at.value);
    r := "true" <= p;
  }
}
