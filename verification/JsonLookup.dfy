/**
 Looking keys up in a flat JSON record with `strstr`: the first match of `"key":` is the
 structural key and never lies inside escaped text.
 */
module JsonLookup {
  import opened Options
  import opened JsonEscape

  // ----- strstr ------------------------------------------------------------------------

  predicate MatchAt(s: string, i: nat, pat: string) {
    i + |pat| <= |s| && s[i..i + |pat|] == pat
  }

  /** What follows the first match of `pat` in `s`. */
  function After(s: string, pat: string): Option<string>
    requires pat != []
  {
    if s == [] then None
    else if pat <= s then Some(s[|pat|..])
    else After(s[1..], pat)
  }

  lemma Mismatch(s: string, i: nat, pat: string, j: nat)
    requires j < |pat| && (i + j < |s| ==> s[i + j] != pat[j])
    ensures !MatchAt(s, i, pat)
  {
    if i + |pat| <= |s| { assert s[i..i + |pat|][j] == s[i + j]; }
  }

  lemma {:induction false} AfterSkips(a: string, b: string, pat: string)
    requires pat != [] && forall i :: 0 <= i < |a| ==> !MatchAt(a + b, i, pat)
    ensures After(a + b, pat) == After(b, pat)
  {
    if a == [] {
      assert a + b == b;
    } else {
      assert !MatchAt(a + b, 0, pat);
      assert (a + b)[1..] == a[1..] + b;
      forall i | 0 <= i < |a[1..]| ensures !MatchAt(a[1..] + b, i, pat) {
        assert !MatchAt(a + b, i + 1, pat);
        if i + 1 + |pat| <= |a + b| { assert (a + b)[i + 1..i + 1 + |pat|] == (a[1..] + b)[i..i + |pat|]; }
      }
      AfterSkips(a[1..], b, pat);
    }
  }

  // ----- Flat records ---------------------------------------------------------------------

  predicate KeyChar(c: char) { 'a' <= c <= 'z' || c == '_' }

  predicate IsKey(k: string) { k != [] && forall c :: c in k ==> KeyChar(c) }

  /** A value as it stands in the text: a quoted, escaped string, or a bare token. */
  datatype Value = Text(raw: string) | Bare(token: string)

  datatype Field = Field(key: string, value: Value)

  ghost predicate IsValue(v: Value) {
    match v
    case Text(raw) => WellEscaped(raw)
    case Bare(token) => '"' !in token
  }

  ghost predicate IsField(f: Field) { IsKey(f.key) && IsValue(f.value) }

  function Show(v: Value): string {
    match v
    case Text(raw) => "\"" + raw + "\""
    case Bare(token) => token
  }

  function Pattern(key: string): (r: string)
    ensures |r| == |key| + 3
  {
    "\"" + key + "\":"
  }

  /** The record from one key on. */
  function Tail(fields: seq<Field>): string
    requires fields != []
    decreases |fields|, 1
  {
    Pattern(fields[0].key) + Show(fields[0].value) + Rest(fields)
  }

  /** What follows the first value. */
  function Rest(fields: seq<Field>): string
    requires fields != []
    decreases |fields|, 0
  {
    if |fields| == 1 then "}" else "," + Tail(fields[1..])
  }

  function Record(fields: seq<Field>): string
    requires fields != []
  {
    "{" + Tail(fields)
  }

  /** Where the parts of a field stand. */
  lemma FieldLayout(f: Field, sep: char, rest: string)
    requires IsField(f)
    ensures var k, v, s := |f.key|, Show(f.value), Pattern(f.key) + Show(f.value) + [sep] + rest;
      && Pattern(f.key) <= s && |Pattern(f.key)| == k + 3 && |s| > k + 3 + |v|
      && s[k + 1] == '"' && s[k + 2] == ':' && s[k + 3 + |v|] == sep
      && (forall j :: 1 <= j <= k ==> KeyChar(s[j]))
      && (forall j :: k + 3 <= j < k + 3 + |v| ==> s[j] == v[j - (k + 3)])
  {
    var k, v, s := |f.key|, Show(f.value), Pattern(f.key) + Show(f.value) + [sep] + rest;
    hide Show;
    assert forall j :: 1 <= j <= k ==> s[j] == f.key[j - 1];
  }

  /** Only a quoted value holds a quote, and after its opening quote every quote but the
      closing one follows a backslash. */
  lemma QuotesInValue(v: Value, i: nat)
    requires IsValue(v) && i < |Show(v)| && Show(v)[i] == '"'
    ensures Show(v)[|Show(v)| - 1] == '"'
    ensures forall j :: i < j < |Show(v)| - 1 && Show(v)[j] == '"' ==> Show(v)[j - 1] == '\\'
  {
    assert v.Text?;
    WellEscapedIsGuarded(v.raw);
    assert forall j :: 1 <= j < |Show(v)| - 1 ==> Show(v)[j] == v.raw[j - 1];
  }

  /** A field other than the one searched for, with the separator behind it, holds no match. */
  lemma NoMatchInField(f: Field, sep: char, rest: string, key: string, i: nat)
    requires IsField(f) && IsKey(key) && f.key != key && (sep == ',' || sep == '}')
    requires i <= |Pattern(f.key) + Show(f.value)|
    ensures !MatchAt(Pattern(f.key) + Show(f.value) + [sep] + rest, i, Pattern(key))
  {
    var k, v := |f.key|, Show(f.value);
    var s := Pattern(f.key) + v + [sep] + rest;
    var end := k + 3 + |v|;
    FieldLayout(f, sep, rest);
    PatternStarts(key);
    if i < end && k + 3 <= i && s[i] == '"' { QuotesInValue(f.value, i - (k + 3)); }
    hide MatchAt, Pattern, Show, IsValue;
    if i == 0 {
      NoMatchAtOtherKey(s, f.key, key);
    } else if s[i] != '"' {
      Mismatch(s, i, Pattern(key), 0);
    } else if i == k + 1 {
      Mismatch(s, i, Pattern(key), 1);
    } else {
      assert i > k && i != k + 2 && i != end;
      forall j | i < j < end - 1 && s[j] == '"' ensures s[j - 1] == '\\' {
        assert s[j] == v[j - (k + 3)] && s[j - 1] == v[j - (k + 3) - 1];
      }
      NoMatchFromQuote(s, i, end, key);
    }
  }

  lemma PatternStarts(key: string)
    requires IsKey(key)
    ensures Pattern(key)[0] == '"' && KeyChar(Pattern(key)[1])
  {
    assert Pattern(key)[1] == key[0] && key[0] in key;
  }

  lemma NoMatchAtOtherKey(s: string, k: string, key: string)
    requires IsKey(k) && IsKey(key) && k != key && Pattern(k) <= s
    ensures !MatchAt(s, 0, Pattern(key))
  {
    assert forall j :: 0 <= j < |k| ==> s[1 + j] == k[j] && KeyChar(k[j]);
    assert forall j :: 0 <= j < |key| ==> Pattern(key)[1 + j] == key[j] && KeyChar(key[j]);
    if |k| < |key| { Mismatch(s, 0, Pattern(key), |k| + 1); }
    else if |k| > |key| { Mismatch(s, 0, Pattern(key), |key| + 1); }
    else {
      var j :| 0 <= j < |k| && k[j] != key[j];
      Mismatch(s, 0, Pattern(key), j + 1);
    }
  }

  /** From a quote inside a quoted value that ends before `end`: every later quote but the
      closing one follows a backslash, and the closing one is not followed by a colon. */
  lemma NoMatchFromQuote(s: string, i: nat, end: nat, key: string)
    requires IsKey(key) && i < end < |s| && s[end] != ':' && !KeyChar(s[end]) && s[end - 1] == '"'
    requires forall j :: i < j < end - 1 && s[j] == '"' ==> s[j - 1] == '\\'
    ensures !MatchAt(s, i, Pattern(key))
  {
    var pat, q := Pattern(key), i + 1 + |key|;
    assert forall j :: 0 <= j < |key| ==> pat[1 + j] == key[j] && KeyChar(key[j]);
    if i == end - 1 {
      Mismatch(s, i, pat, 1);
    } else if q == end - 1 {
      Mismatch(s, i, pat, |key| + 2);
    } else if q > end - 1 {
      Mismatch(s, i, pat, end - 1 - i);
    } else if s[q] != '"' {
      Mismatch(s, i, pat, |key| + 1);
    } else {
      Mismatch(s, i, pat, |key|);
    }
  }

  /** Where the value of `key` stands. */
  function Lookup(fields: seq<Field>, key: string): Option<string>
    requires fields != []
  {
    if fields[0].key == key then Some(Show(fields[0].value) + Rest(fields))
    else if |fields| == 1 then None
    else Lookup(fields[1..], key)
  }

  ghost predicate AllFields(fields: seq<Field>) { fields != [] && forall f :: f in fields ==> IsField(f) }

  lemma {:induction false} AfterInTail(fields: seq<Field>, key: string)
    requires AllFields(fields) && IsKey(key)
    ensures After(Tail(fields), Pattern(key)) == Lookup(fields, key)
    decreases |fields|
  {
    var f, pat := fields[0], Pattern(key);
    assert f in fields;
    if f.key == key {
      var t := Show(f.value) + Rest(fields);
      assert Tail(fields) == pat + t;
    } else {
      var head, sep := Pattern(f.key) + Show(f.value), Rest(fields)[0];
      var rest := Rest(fields)[1..];
      assert Tail(fields) == (head + [sep]) + rest;
      forall i | 0 <= i < |head + [sep]| ensures !MatchAt((head + [sep]) + rest, i, pat) {
        NoMatchInField(f, sep, rest, key, i);
      }
      AfterSkips(head + [sep], rest, pat);
      if |fields| == 1 {
        assert rest == [];
      } else {
        assert rest == Tail(fields[1..]);
        AfterInTail(fields[1..], key);
      }
    }
  }

  /** The first match of `"key":` in a record is the structural key. */
  lemma FirstMatchIsStructural(fields: seq<Field>, key: string)
    requires AllFields(fields) && IsKey(key)
    ensures After(Record(fields), Pattern(key)) == Lookup(fields, key)
  {
    var t := Tail(fields);
    assert Record(fields)[1..] == t;
    assert !(Pattern(key) <= Record(fields)) by { assert Record(fields)[0] == '{' && Pattern(key)[0] == '"'; }
    AfterInTail(fields, key);
  }
}
