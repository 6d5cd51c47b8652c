/** Printing a string as a Kotlin literal by JSON-encoding it and rescanning the result, and a
    Kotlin lexer that reads the literal back. */
module KotlinString {
  import opened Wrappers

  /** A Unicode code point. */
  newtype Code = c: int | 0 <= c < 0x11_0000

  type Text = seq<Code>

  const QUOTE: Code := 34
  const DOLLAR: Code := 36
  const BACKSLASH: Code := 92
  const U: Code := 117

  function HexDigit(d: Code, letter: Code): Code
    requires d < 16 && letter <= 97
  {
    if d < 10 then 48 + d else letter + (d - 10)
  }

  /** `\\u` and four hexadecimal digits. */
  function UnicodeEscape(c: Code, letter: Code): Text
    requires c < 0x1_0000 && letter <= 97
  {
    [BACKSLASH, U, HexDigit(c / 4096, letter), HexDigit(c / 256 % 16, letter),
     HexDigit(c / 16 % 16, letter), HexDigit(c % 16, letter)]
  }

  // --- json.dumps, section 7 of RFC 8259 ---------------------------------------------------

  function JsonEscape(c: Code): Text {
    if c == QUOTE || c == BACKSLASH then [BACKSLASH, c]
    else if c == 8 then [BACKSLASH, 98]
    else if c == 9 then [BACKSLASH, 116]
    else if c == 10 then [BACKSLASH, 110]
    else if c == 12 then [BACKSLASH, 102]
    else if c == 13 then [BACKSLASH, 114]
    else if c < 32 then UnicodeEscape(c, 97)
    else [c]
  }

  /** The escapes of section 7 of RFC 8259 that `json.dumps` uses: two characters where there is a short
      form, four hexadecimal digits for the other control characters, and every other character as it
      is. */
  lemma JsonEscapeIs(c: Code)
    ensures c == 34 ==> JsonEscape(c) == [92, 34]
    ensures c == 92 ==> JsonEscape(c) == [92, 92]
    ensures c == 8 ==> JsonEscape(c) == [92, 98]
    ensures c == 9 ==> JsonEscape(c) == [92, 116]
    ensures c == 10 ==> JsonEscape(c) == [92, 110]
    ensures c == 12 ==> JsonEscape(c) == [92, 102]
    ensures c == 13 ==> JsonEscape(c) == [92, 114]
    ensures c < 32 && c !in {8, 9, 10, 12, 13} ==> JsonEscape(c) == [92, 117, 48, 48, 48 + c / 16] + [LowHex(c % 16)]
    ensures c >= 32 && c != 34 && c != 92 ==> JsonEscape(c) == [c]
  {
  }

  function LowHex(d: Code): Code {
    if d < 10 then 48 + d else if d < 16 then 87 + d else 0
  }

  function JsonBody(v: Text): Text {
    if v == [] then [] else JsonEscape(v[0]) + JsonBody(v[1..])
  }

  function JsonDumps(v: Text): Text {
    [QUOTE] + JsonBody(v) + [QUOTE]
  }

  // --- the rescan ---------------------------------------------------------------------------

  predicate LineSeparator(c: Code) {
    c == 0x85 || c == 0x2028 || c == 0x2029
  }

  /** What one scan step emits, and how much input it takes. */
  function ScanStep(s: Text): (r: (Text, nat))
    requires s != []
    ensures 1 <= r.1 <= |s|
  {
    if s[0] == BACKSLASH && |s| > 1 then
      (if s[1] == 102 then [BACKSLASH, U, 48, 48, 48, 67] else [s[0], s[1]], 2)
    else if s[0] == DOLLAR then ([BACKSLASH, DOLLAR], 1)
    else if LineSeparator(s[0]) then (UnicodeEscape(s[0], 65), 1)
    else ([s[0]], 1)
  }

  function Rescan(s: Text): Text
    decreases |s|
  {
    if s == [] then [] else ScanStep(s).0 + Rescan(s[ScanStep(s).1..])
  }

  method KotlinString(value: Text) returns (out: Text)
    ensures out == Rescan(JsonDumps(value))
    ensures Lex(out) == Some((value, []))
  {
    hide Rescan, JsonDumps, Lex;
    var encoded := JsonDumps(value);
    out := [];
    assert encoded[0..] == encoded;
    var i := 0;
    while i < |encoded|
      invariant i <= |encoded|
      invariant out + Rescan(encoded[i..]) == Rescan(encoded)
      decreases |encoded| - i
    {
      ghost var before, from := out, i;
      var ch := encoded[i];
      if ch == BACKSLASH && i + 1 < |encoded| {
        var nxt := encoded[i + 1];
        if nxt == 102 {
          out := out + [BACKSLASH, U, 48, 48, 48, 67];
        } else {
          out := out + [ch, nxt];
        }
        i := i + 2;
      } else if ch == DOLLAR {
        out := out + [BACKSLASH, DOLLAR];
        i := i + 1;
      } else if LineSeparator(ch) {
        out := out + UnicodeEscape(ch, 65);
        i := i + 1;
      } else {
        out := out + [ch];
        i := i + 1;
      }
      ScanAdvances(encoded, from, before);
    }
    RescanNothing(encoded[i..]);
    LiteralRoundTrip(value, []);
    assert out + [] == out;
  }

  lemma RescanNothing(s: Text)
    requires s == []
    ensures Rescan(s) == []
  {
  }

  /** One scan step moves its output from what is left to what is done. */
  lemma ScanAdvances(encoded: Text, i: nat, out: Text)
    requires i < |encoded|
    ensures var (emitted, taken) := ScanStep(encoded[i..]);
      && i + taken <= |encoded|
      && (out + emitted) + Rescan(encoded[i + taken..]) == out + Rescan(encoded[i..])
  {
    var s := encoded[i..];
    var (emitted, taken) := ScanStep(s);
    assert s[taken..] == encoded[i + taken..];
    assert Rescan(s) == emitted + Rescan(s[taken..]);
  }

  // --- one character at a time ----------------------------------------------------------------

  /** The literal's spelling of one character. */
  function KotlinEscape(c: Code): Text {
    if c == 12 then UnicodeEscape(c, 65)
    else if c == DOLLAR then [BACKSLASH, DOLLAR]
    else if LineSeparator(c) then UnicodeEscape(c, 65)
    else JsonEscape(c)
  }

  function KotlinBody(v: Text): Text {
    if v == [] then [] else KotlinEscape(v[0]) + KotlinBody(v[1..])
  }

  /** Characters the rescan copies. */
  predicate Plain(c: Code) {
    c != BACKSLASH && c != DOLLAR && !LineSeparator(c)
  }

  lemma RescanPlain(c: Code, rest: Text)
    requires Plain(c)
    ensures Rescan([c] + rest) == [c] + Rescan(rest)
  {
    assert ([c] + rest)[1..] == rest;
  }

  lemma RescanPair(c: Code, rest: Text)
    ensures Rescan([BACKSLASH, c] + rest)
         == (if c == 102 then [BACKSLASH, U, 48, 48, 48, 67] else [BACKSLASH, c]) + Rescan(rest)
  {
    assert ([BACKSLASH, c] + rest)[2..] == rest;
  }

  lemma RescanUnicode(c: Code, rest: Text)
    requires c < 32
    ensures Rescan(UnicodeEscape(c, 97) + rest) == UnicodeEscape(c, 97) + Rescan(rest)
  {
    hide Rescan;
    var e := UnicodeEscape(c, 97);
    var r4 := [e[5]] + rest;
    var r3 := [e[4]] + r4;
    var r2 := [e[3]] + r3;
    var r1 := [e[2]] + r2;
    assert e + rest == [BACKSLASH, U] + r1;
    RescanPair(U, r1);
    RescanPlain(e[2], r2);
    RescanPlain(e[3], r3);
    RescanPlain(e[4], r4);
    RescanPlain(e[5], rest);
  }

  lemma RescanSpecial(c: Code, rest: Text)
    requires c == DOLLAR || LineSeparator(c)
    ensures Rescan([c] + rest) == KotlinEscape(c) + Rescan(rest)
  {
    assert ([c] + rest)[1..] == rest;
  }

  lemma RescanOne(c: Code, rest: Text)
    ensures Rescan(JsonEscape(c) + rest) == KotlinEscape(c) + Rescan(rest)
  {
    hide Rescan;
    var e := JsonEscape(c);
    if |e| == 2 {
      RescanPair(e[1], rest);
      assert e == [BACKSLASH, e[1]];
    } else if c < 32 {
      RescanUnicode(c, rest);
    } else if Plain(c) {
      RescanPlain(c, rest);
    } else {
      RescanSpecial(c, rest);
    }
  }

  /** The rescan never loses its place: it sees the JSON escapes one whole escape at a time. */
  lemma {:induction false} RescanOfJson(v: Text)
    ensures Rescan(JsonBody(v) + [QUOTE]) == KotlinBody(v) + [QUOTE]
  {
    if v == [] {
      RescanPlain(QUOTE, []);
    } else {
      var rest := JsonBody(v[1..]) + [QUOTE];
      assert JsonBody(v) + [QUOTE] == JsonEscape(v[0]) + rest;
      RescanOne(v[0], rest);
      RescanOfJson(v[1..]);
      assert KotlinEscape(v[0]) + (KotlinBody(v[1..]) + [QUOTE]) == KotlinBody(v) + [QUOTE];
    }
  }

  lemma LiteralIs(v: Text)
    ensures Rescan(JsonDumps(v)) == [QUOTE] + KotlinBody(v) + [QUOTE]
  {
    RescanOfJson(v);
    assert JsonDumps(v) == [QUOTE] + (JsonBody(v) + [QUOTE]);
    RescanPlain(QUOTE, JsonBody(v) + [QUOTE]);
  }

  // --- reading it back --------------------------------------------------------------------------

  function HexValue(c: Code): Option<Code> {
    if 48 <= c <= 57 then Some(c - 48)
    else if 65 <= c <= 70 then Some(c - 55)
    else if 97 <= c <= 102 then Some(c - 87)
    else None
  }

  function SimpleEscape(c: Code): Option<Code> {
    if c == 116 then Some(9)
    else if c == 98 then Some(8)
    else if c == 110 then Some(10)
    else if c == 114 then Some(13)
    else if c == 39 || c == QUOTE || c == BACKSLASH || c == DOLLAR then Some(c)
    else None
  }

  predicate LineTerminator(c: Code) {
    c == 10 || c == 13 || LineSeparator(c)
  }

  /** One character of a literal's body, and how much input it takes. A raw dollar sign would
      begin a template and a raw line terminator would end the line, so both are refused. */
  function LexChar(s: Text): (r: Option<(Code, nat)>)
    ensures r.Some? ==> 1 <= r.value.1 <= |s|
  {
    if s == [] || s[0] == QUOTE || s[0] == DOLLAR || LineTerminator(s[0]) then None
    else if s[0] != BACKSLASH then Some((s[0], 1))
    else if |s| >= 2 && SimpleEscape(s[1]).Some? then Some((SimpleEscape(s[1]).value, 2))
    else if |s| >= 6 && s[1] == U then
      (match (HexValue(s[2]), HexValue(s[3]), HexValue(s[4]), HexValue(s[5]))
       case (Some(a), Some(b), Some(c), Some(d)) =>
         if a < 16 && b < 16 && c < 16 && d < 16 then Some((a * 4096 + b * 256 + c * 16 + d, 6)) else None
       case _ => None)
    else None
  }

  /** The characters up to the closing quote, and what follows it. */
  function LexBody(s: Text): Option<(Text, Text)>
    decreases |s|
  {
    if s == [] then None
    else if s[0] == QUOTE then Some(([], s[1..]))
    else match LexChar(s)
      case None => None
      case Some((c, n)) => match LexBody(s[n..])
        case None => None
        case Some((v, rest)) => Some(([c] + v, rest))
  }

  /** A Kotlin lexer on a string literal. */
  function Lex(s: Text): Option<(Text, Text)> {
    if s == [] || s[0] != QUOTE then None else LexBody(s[1..])
  }

  lemma HexRoundTrip(d: Code, letter: Code)
    requires d < 16 && letter in {65, 97}
    ensures HexValue(HexDigit(d, letter)) == Some(d)
  {
  }

  lemma LexUnicode(c: Code, letter: Code, rest: Text)
    requires c < 0x1_0000 && letter in {65, 97}
    ensures LexChar(UnicodeEscape(c, letter) + rest) == Some((c, 6))
  {
    HexRoundTrip(c / 4096, letter);
    HexRoundTrip(c / 256 % 16, letter);
    HexRoundTrip(c / 16 % 16, letter);
    HexRoundTrip(c % 16, letter);
    var h := c / 16;
    var hh := h / 16;
    assert c / 256 == hh && c / 4096 == hh / 16;
  }

  lemma LexOne(c: Code, rest: Text)
    ensures LexChar(KotlinEscape(c) + rest) == Some((c, |KotlinEscape(c)|))
    ensures KotlinEscape(c) != [] && KotlinEscape(c)[0] != QUOTE
  {
    if c == 12 || LineSeparator(c) {
      LexUnicode(c, 65, rest);
    } else if c < 32 && |KotlinEscape(c)| == 6 {
      LexUnicode(c, 97, rest);
    }
  }

  lemma {:induction false} BodyLexes(v: Text, rest: Text)
    ensures LexBody(KotlinBody(v) + [QUOTE] + rest) == Some((v, rest))
  {
    hide KotlinEscape, LexChar;
    if v == [] {
      assert KotlinBody(v) + [QUOTE] + rest == [QUOTE] + rest;
    } else {
      var tail := KotlinBody(v[1..]) + [QUOTE] + rest;
      var e := KotlinEscape(v[0]);
      assert KotlinBody(v) + [QUOTE] + rest == e + tail;
      LexOne(v[0], tail);
      assert (e + tail)[|e|..] == tail;
      BodyLexes(v[1..], rest);
      assert [v[0]] + v[1..] == v;
    }
  }

  /** Round trip: whatever text follows, Kotlin reads the literal back as the value, with no
      raw quote, dollar sign or line terminator met on the way. */
  lemma LiteralRoundTrip(v: Text, rest: Text)
    ensures Lex(Rescan(JsonDumps(v)) + rest) == Some((v, rest))
  {
    LiteralIs(v);
    var s := Rescan(JsonDumps(v)) + rest;
    assert s[1..] == KotlinBody(v) + [QUOTE] + rest;
    BodyLexes(v, rest);
  }

  lemma {:induction false} BodyHasNoTerminator(v: Text)
    ensures forall c | c in KotlinBody(v) :: !LineTerminator(c)
  {
    if v != [] {
      BodyHasNoTerminator(v[1..]);
      forall c | c in KotlinEscape(v[0]) ensures !LineTerminator(c) {
        var k :| 0 <= k < |KotlinEscape(v[0])| && KotlinEscape(v[0])[k] == c;
      }
    }
  }

  /** A dollar sign, a form feed and the Unicode line separators are what JSON writes otherwise
      than Kotlin reads. */
  predicate NeedsRescan(c: Code) {
    c == DOLLAR || c == 12 || LineSeparator(c)
  }

  lemma BadCharStops(c: Code, rest: Text)
    requires NeedsRescan(c)
    ensures LexChar(JsonEscape(c) + rest) == None && JsonEscape(c) != [] && JsonEscape(c)[0] != QUOTE
  {
  }

  lemma {:induction false} BadBodyStops(v: Text)
    requires exists c :: c in v && NeedsRescan(c)
    ensures LexBody(JsonBody(v) + [QUOTE]) == None
  {
    hide NeedsRescan, LexChar, JsonEscape, KotlinEscape;
    var c, rest := v[0], JsonBody(v[1..]) + [QUOTE];
    assert JsonBody(v) + [QUOTE] == JsonEscape(c) + rest;
    if NeedsRescan(c) {
      BadCharStops(c, rest);
    } else {
      SameEscape(c);
      LexOne(c, rest);
      assert (JsonEscape(c) + rest)[|JsonEscape(c)|..] == rest;
      BadBodyStops(v[1..]);
    }
  }

  lemma SameEscape(c: Code)
    requires !NeedsRescan(c)
    ensures KotlinEscape(c) == JsonEscape(c)
  {
  }

  lemma {:induction false} CleanBodyIsKotlin(v: Text)
    requires forall c | c in v :: !NeedsRescan(c)
    ensures JsonBody(v) == KotlinBody(v)
  {
    hide NeedsRescan, JsonEscape, KotlinEscape;
    if v != [] {
      SameEscape(v[0]);
      CleanBodyIsKotlin(v[1..]);
    }
  }

  /** JSON's own output is a Kotlin literal of the same value exactly when the value has no dollar
      sign, form feed or Unicode line separator. */
  lemma JsonIsKotlinIff(v: Text)
    ensures Lex(JsonDumps(v)) == Some((v, [])) <==> forall c | c in v :: !NeedsRescan(c)
  {
    hide NeedsRescan, LexBody, JsonBody, KotlinBody;
    assert JsonDumps(v)[1..] == JsonBody(v) + [QUOTE];
    if c :| c in v && NeedsRescan(c) {
      BadBodyStops(v);
    } else {
      CleanBodyIsKotlin(v);
      BodyLexes(v, []);
      assert KotlinBody(v) + [QUOTE] + [] == KotlinBody(v) + [QUOTE];
    }
  }
}
