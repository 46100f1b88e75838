/**
 How the annotation store escapes text for JSON, and reads it back.
 */
module JsonEscape {
  import opened Numerals
  import opened Options
  import opened Sequences

  // ----- Escaping ------------------------------------------------------------------

  function EscapeChar(c: char): string {
    if c == '"' then "\\\""
    else if c == '\\' then "\\\\"
    else if c == '\n' then "\\n"
    else if c == '\r' then "\\r"
    else if c == '\t' then "\\t"
    else if c < ' ' then "\\u00" + [HEX[c as int / 16], HEX[c as int % 16]]
    else [c]
  }

  function Escape(s: string): string {
    if s == [] then [] else EscapeChar(s[0]) + Escape(s[1..])
  }

  function UnescapeChar(c: char): char {
    if c == 'n' then '\n' else if c == 'r' then '\r' else if c == 't' then '\t' else c
  }

  function Unescape(s: string): string {
    if s == [] then []
    else if s[0] == '\\' && |s| >= 2 then [UnescapeChar(s[1])] + Unescape(s[2..])
    else [s[0]] + Unescape(s[1..])
  }

  /** Control characters that come back changed: all but newline, return and tab. */
  predicate Lossy(c: char) { c < ' ' && c != '\n' && c != '\r' && c != '\t' }

  predicate Faithful(s: string) { forall c :: c in s ==> !Lossy(c) }

  /** What the parser makes of an escaped text. */
  function Reread(s: string): (r: string)
    ensures |r| >= |s|
  {
    if s == [] then [] else (if Lossy(s[0]) then EscapeChar(s[0])[1..] else [s[0]]) + Reread(s[1..])
  }

  lemma UnescapeLetter(c: char, t: string)
    requires c != '\\'
    ensures Unescape([c] + t) == [c] + Unescape(t)
  {
    assert ([c] + t)[1..] == t;
  }

  lemma {:induction false} UnescapeLetters(s: string, t: string)
    requires '\\' !in s
    ensures Unescape(s + t) == s + Unescape(t)
  {
    if s == [] {
      assert s + t == t;
    } else {
      UnescapeLetters(s[1..], t);
      UnescapeLetter(s[0], s[1..] + t);
      hide Unescape;
      assert s + t == [s[0]] + (s[1..] + t);
      assert s + Unescape(t) == [s[0]] + (s[1..] + Unescape(t));
    }
  }

  lemma UnescapePair(c: char, t: string)
    ensures Unescape(['\\', c] + t) == [UnescapeChar(c)] + Unescape(t)
  {
    assert (['\\', c] + t)[2..] == t;
  }

  lemma UnescapeLossy(c: char, t: string)
    requires Lossy(c)
    ensures Unescape(EscapeChar(c) + t) == EscapeChar(c)[1..] + Unescape(t)
  {
    var e := EscapeChar(c);
    assert e + t == ['\\', 'u'] + (e[2..] + t);
    UnescapePair('u', e[2..] + t);
    UnescapeLetters(e[2..], t);
  }

  lemma UnescapeOne(c: char, t: string)
    ensures Unescape(EscapeChar(c) + t) == (if Lossy(c) then EscapeChar(c)[1..] else [c]) + Unescape(t)
  {
    if Lossy(c) {
      UnescapeLossy(c, t);
    } else if EscapeChar(c) == [c] {
      UnescapeLetters([c], t);
    } else {
      UnescapePair(EscapeChar(c)[1], t);
    }
  }

  lemma {:induction false} UnescapeEscape(s: string)
    ensures Unescape(Escape(s)) == Reread(s)
  {
    if s != [] {
      UnescapeEscape(s[1..]);
      UnescapeOne(s[0], Escape(s[1..]));
    }
  }

  /** Text survives escaping and unescaping exactly when it has no lossy character. */
  lemma RoundTripIffFaithful(s: string)
    ensures Unescape(Escape(s)) == s <==> Faithful(s)
  {
    UnescapeEscape(s);
    RereadIsIdentityIffFaithful(s);
  }

  lemma RereadStep(s: string)
    requires s != []
    ensures Lossy(s[0]) ==> |Reread(s)| == 5 + |Reread(s[1..])|
    ensures !Lossy(s[0]) ==> Reread(s) == [s[0]] + Reread(s[1..])
  {
  }

  lemma {:induction false} RereadIsIdentityIffFaithful(s: string)
    ensures Faithful(s) ==> Reread(s) == s
    ensures !Faithful(s) ==> |Reread(s)| > |s|
  {
    if s != [] {
      RereadIsIdentityIffFaithful(s[1..]);
      assert s == [s[0]] + s[1..];
      assert forall c :: c in s <==> c == s[0] || c in s[1..];
      RereadStep(s);
      hide Reread, Lossy;
    }
  }

  /** For instance, the character with code 1 comes back as five characters. */
  lemma LossyExample()
    ensures Unescape(Escape([1 as char])) == "u0001"
  {
    UnescapeEscape([1 as char]);
  }

  // ----- A conforming reader -----------------------------------------------------------

  /** The value of a hexadecimal digit. */
  function HexDigit(c: char): (r: Option<nat>)
    ensures r.Some? ==> r.value < 16
  {
    if '0' <= c <= '9' then Some(c as nat - '0' as nat)
    else if 'a' <= c <= 'f' then Some(10 + (c as nat - 'a' as nat))
    else if 'A' <= c <= 'F' then Some(10 + (c as nat - 'A' as nat))
    else None
  }

  /** What the letter of a two-character escape stands for. */
  function Letter(c: char): Option<char> {
    if c == '"' || c == '\\' || c == '/' then Some(c)
    else if c == 'b' then Some(8 as char)
    else if c == 'f' then Some(12 as char)
    else if c == 'n' then Some(10 as char)
    else if c == 'r' then Some(13 as char)
    else if c == 't' then Some(9 as char)
    else None
  }

  /** The ASCII character written as `u00` and two hexadecimal digits. */
  function Coded(e: string): Option<char> {
    if |e| < 5 || e[..3] != "u00" || HexDigit(e[3]).None? || HexDigit(e[4]).None? then None
    else
      var v := 16 * HexDigit(e[3]).value + HexDigit(e[4]).value;
      if v < 128 then Some(v as char) else None
  }

  /** The text between the quotes of a JSON string as section 7 of RFC 8259 reads it; None when
      it is not well formed, or codes a character beyond ASCII. */
  function StringValue(e: string): Option<string> {
    if e == [] then Some([])
    else if e[0] == '\\' then
      if |e| >= 2 && Letter(e[1]).Some? then Then(Letter(e[1]).value, StringValue(e[2..]))
      else if Coded(e[1..]).Some? then Then(Coded(e[1..]).value, StringValue(e[6..]))
      else None
    else if e[0] < ' ' || e[0] == '"' then None
    else Then(e[0], StringValue(e[1..]))
  }

  function Then(c: char, rest: Option<string>): Option<string> {
    match rest case None => None case Some(t) => Some([c] + t)
  }

  lemma HexDigitReads(n: nat)
    requires n < 16
    ensures HexDigit(HEX[n]) == Some(n)
  {
  }

  lemma CodedReads(c: char, t: string)
    requires Lossy(c)
    ensures EscapeChar(c)[0] == '\\' && Coded((EscapeChar(c) + t)[1..]) == Some(c) && |EscapeChar(c)| == 6
  {
    var n := c as nat;
    HexDigitReads(n / 16);
    HexDigitReads(n % 16);
    var e := (EscapeChar(c) + t)[1..];
    assert e[..3] == "u00" && e[3] == HEX[n / 16] && e[4] == HEX[n % 16];
  }

  lemma ValueOfCode(e: string, c: char, t: string)
    requires |e| == 6 && e[0] == '\\' && e[1] == 'u' && Coded((e + t)[1..]) == Some(c)
    ensures StringValue(e + t) == Then(c, StringValue(t))
  {
    hide Coded;
    assert (e + t)[6..] == t;
  }

  lemma ValueOfPair(l: char, c: char, t: string)
    requires Letter(l) == Some(c)
    ensures StringValue(['\\', l] + t) == Then(c, StringValue(t))
  {
    hide Letter, Coded;
    assert (['\\', l] + t)[2..] == t;
  }

  lemma ValueOfPlain(c: char, t: string)
    requires c >= ' ' && c != '"' && c != '\\'
    ensures StringValue([c] + t) == Then(c, StringValue(t))
  {
    assert ([c] + t)[1..] == t;
  }

  lemma ValueStep(c: char, t: string)
    ensures StringValue(EscapeChar(c) + t) == Then(c, StringValue(t))
  {
    hide StringValue, Coded;
    if Lossy(c) {
      CodedReads(c, t);
      ValueOfCode(EscapeChar(c), c, t);
    } else if EscapeChar(c) == [c] {
      ValueOfPlain(c, t);
    } else {
      ValueOfPair(EscapeChar(c)[1], c, t);
    }
  }

  /** A conforming reader gets every text back, also those the store's own reader changes. */
  lemma {:induction false} ConformingReaderRecovers(s: string)
    ensures StringValue(Escape(s)) == Some(s)
  {
    if s == [] {
      assert StringValue([]) == Some([]);
    } else {
      hide StringValue, EscapeChar;
      ConformingReaderRecovers(s[1..]);
      ValueStep(s[0], Escape(s[1..]));
      assert [s[0]] + s[1..] == s;
    }
  }

  /** Number of characters written with `u` in a well formed text. */
  function Codes(e: string): nat {
    if e == [] then 0
    else if e[0] == '\\' && |e| >= 2 && Letter(e[1]).Some? then Codes(e[2..])
    else if e[0] == '\\' && Coded(e[1..]).Some? then 1 + Codes(e[6..])
    else Codes(e[1..])
  }

  /** No backspace, form feed or code is written with a backslash. */
  predicate Common(e: string) {
    e == []
    || (if e[0] == '\\' && |e| >= 2 then e[1] != 'b' && e[1] != 'f' && e[1] != 'u' && Common(e[2..])
        else Common(e[1..]))
  }

  lemma CodedShape(e: string)
    requires Coded(e).Some?
    ensures |e| >= 5 && e[0] == 'u' && '\\' !in e[1..5]
  {
    assert e[..3][0] == e[0] && e[..3][1] == e[1] && e[..3][2] == e[2];
  }

  lemma SkipCode(e: string)
    requires |e| >= 6 && e[0] == '\\' && Coded(e[1..]).Some?
    ensures Unescape(e) == e[1..6] + Unescape(e[6..])
  {
    CodedShape(e[1..]);
    hide Coded, Unescape;
    assert e[1..][1..5] == e[2..6];
    assert e == ['\\', 'u'] + (e[2..6] + e[6..]);
    UnescapePair('u', e[2..6] + e[6..]);
    UnescapeLetters(e[2..6], e[6..]);
    Regroup(['u'], e[2..6], Unescape(e[6..]));
    assert ['u'] + e[2..6] == e[1..6];
  }

  /** Every coded character costs the store's reader four characters too many. */
  lemma {:induction false} CodesCost(e: string)
    requires StringValue(e).Some?
    ensures |Unescape(e)| == |StringValue(e).value| + 4 * Codes(e)
    ensures Common(e) ==> Codes(e) == 0
  {
    if e == [] {
    } else if e[0] == '\\' && Letter(e[1]).Some? {
      CodesCost(e[2..]);
    } else if e[0] == '\\' {
      SkipCode(e);
      CodesCost(e[6..]);
    } else {
      CodesCost(e[1..]);
    }
  }

  /** The store's reader understands a JSON text as a conforming reader does exactly when it
      writes no backspace, form feed or code with a backslash. */
  lemma {:induction false} ReaderConformsIff(e: string)
    requires StringValue(e).Some?
    ensures Unescape(e) == StringValue(e).value <==> Common(e)
  {
    CodesCost(e);
    if e == [] {
    } else if e[0] == '\\' && Letter(e[1]).Some? {
      ReaderConformsIff(e[2..]);
      SameHead(UnescapeChar(e[1]), Letter(e[1]).value, Unescape(e[2..]), StringValue(e[2..]).value);
    } else if e[0] == '\\' {
      assert Codes(e) > 0;
    } else {
      ReaderConformsIff(e[1..]);
      SameHead(e[0], e[0], Unescape(e[1..]), StringValue(e[1..]).value);
    }
  }

  lemma SameHead(c: char, d: char, s: string, t: string)
    ensures [c] + s == [d] + t <==> c == d && s == t
  {
    if [c] + s == [d] + t {
      assert ([c] + s)[0] == c && ([c] + s)[1..] == s && ([d] + t)[0] == d && ([d] + t)[1..] == t;
    }
  }

  // ----- Well escaped text -----------------------------------------------------------

  /** Splits into backslash pairs and characters other than quote and backslash. */
  ghost predicate WellEscaped(e: string) {
    e == []
    || (e[0] == '\\' && |e| >= 2 && WellEscaped(e[2..]))
    || (e[0] != '\\' && e[0] != '"' && WellEscaped(e[1..]))
  }

  /** Every quote directly follows a backslash. */
  ghost predicate Guarded(e: string) {
    forall j :: 0 <= j < |e| && e[j] == '"' ==> j > 0 && e[j - 1] == '\\'
  }

  predicate Plain(s: string) { '"' !in s && '\\' !in s && '\0' !in s }

  lemma {:induction false} WellEscapedIsGuarded(e: string)
    requires WellEscaped(e)
    ensures Guarded(e)
  {
    if e == [] {
    } else if e[0] == '\\' && |e| >= 2 && WellEscaped(e[2..]) {
      WellEscapedIsGuarded(e[2..]);
      assert forall j :: 2 <= j < |e| ==> e[j] == e[2..][j - 2];
    } else {
      WellEscapedIsGuarded(e[1..]);
      assert forall j :: 1 <= j < |e| ==> e[j] == e[1..][j - 1];
    }
  }

  lemma {:induction false} WellEscapedLetters(s: string, e: string)
    requires '\\' !in s && '"' !in s && WellEscaped(e)
    ensures WellEscaped(s + e)
  {
    if s == [] {
      assert s + e == e;
    } else {
      WellEscapedLetters(s[1..], e);
      assert (s + e)[1..] == s[1..] + e;
    }
  }

  lemma EmptyIsWellEscaped()
    ensures WellEscaped([])
  {
  }

  /** An escape is the character itself, or a backslash pair and perhaps four hexadecimal digits. */
  lemma EscapeCharShape(c: char)
    ensures var e := EscapeChar(c);
      && '\0' !in e
      && (e == [c] ==> c != '"' && c != '\\')
      && (e != [c] ==> |e| >= 2 && e[0] == '\\' && '\\' !in e[2..] && '"' !in e[2..])
  {
    if Lossy(c) {
      HexIsPlain(c as int / 16);
      HexIsPlain(c as int % 16);
    }
  }

  lemma HexIsPlain(n: nat)
    requires n < 16
    ensures HEX[n] != '\\' && HEX[n] != '"' && HEX[n] != '\0'
  {
  }

  lemma WellEscapedOne(c: char, t: string)
    requires WellEscaped(t)
    ensures WellEscaped(EscapeChar(c) + t)
  {
    hide EscapeChar;
    var e := EscapeChar(c);
    EscapeCharShape(c);
    if e == [c] {
      assert (e + t)[1..] == t;
    } else {
      WellEscapedLetters(e[2..], t);
      assert (e + t)[2..] == e[2..] + t;
    }
  }

  lemma {:induction false} EscapeIsWellEscaped(s: string)
    ensures WellEscaped(Escape(s)) && '\0' !in Escape(s)
  {
    if s != [] {
      hide WellEscaped, EscapeChar;
      EscapeIsWellEscaped(s[1..]);
      WellEscapedOne(s[0], Escape(s[1..]));
      EscapeCharShape(s[0]);
    } else {
      EmptyIsWellEscaped();
    }
  }

  lemma PlainIsWellEscaped(s: string)
    requires Plain(s)
    ensures WellEscaped(s) && Unescape(s) == s
  {
    WellEscapedLetters(s, []);
    UnescapeLetters(s, []);
    assert s + [] == s;
  }

  // ----- The loops ---------------------------------------------------------------------

  method EscapeText(s: string) returns (out: string)
    ensures out == Escape(s)
  {
    out := "";
    for i := 0 to |s|
      invariant out + Escape(s[i..]) == Escape(s)
    {
      assert s[i..][1..] == s[i + 1..];
      out := out + EscapeChar(s[i]);
    }
  }

  lemma UnescapeFrom(s: string, i: nat)
    requires i < |s|
    ensures Unescape(s[i..]) == if s[i] == '\\' && i + 1 < |s| then [UnescapeChar(s[i + 1])] + Unescape(s[i + 2..])
                                else [s[i]] + Unescape(s[i + 1..])
  {
    assert s[i..][1..] == s[i + 1..];
    if i + 1 < |s| { assert s[i..][2..] == s[i + 2..]; }
  }

  method UnescapeText(s: string) returns (out: string)
    ensures out == Unescape(s)
  {
    out := "";
    var i := 0;
    assert s[0..] == s;
    while i < |s|
      invariant i <= |s|
      invariant out + Unescape(s[i..]) == Unescape(s)
    {
      UnescapeFrom(s, i);
      hide Unescape, UnescapeChar;
      if s[i] == '\\' && i + 1 < |s| {
        Regroup(out, [UnescapeChar(s[i + 1])], Unescape(s[i + 2..]));
        i := i + 1;
        out := out + [UnescapeChar(s[i])];
      } else {
        Regroup(out, [s[i]], Unescape(s[i + 1..]));
        out := out + [s[i]];
      }
      i := i + 1;
    }
  }
}
