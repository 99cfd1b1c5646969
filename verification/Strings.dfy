/** String literals: what the writer escapes and what the lexer unescapes (RFC 8259 section 7). */
module Strings {
  import opened Chars

  // ---- Writing ----------------------------------------------------------------------------------

  /** What `writer_quote` appends for one byte. */
  function Escape(c: char): (e: string)
    ensures e != [] && e[0] != '"'
  {
    if c == '"' then "\\\""
    else if c == '\\' then "\\\\"
    else if c == '\n' then "\\n"
    else if c == '\r' then "\\r"
    else if c == '\t' then "\\t"
    else if c as int < 0x20 then "\\u" + Hex4(c as int)
    else [c]
  }

  function EscapeAll(s: string): string {
    if s == [] then [] else Escape(s[0]) + EscapeAll(s[1..])
  }

  function Quote(s: string): (q: string)
    ensures q != [] && q[0] == '"'
  {
    "\"" + EscapeAll(s) + "\""
  }

  lemma {:induction false} EscapeAllSnoc(s: string, c: char)
    ensures EscapeAll(s + [c]) == EscapeAll(s) + Escape(c)
  {
    if s == [] {
      assert [c][1..] == [];
    } else {
      assert (s + [c])[1..] == s[1..] + [c];
      EscapeAllSnoc(s[1..], c);
    }
  }

  // ---- Reading ----------------------------------------------------------------------------------

  datatype Scanned = NoString | GotString(text: string, rest: string)
  {
    function Prepend(front: string): Scanned {
      match this
      case NoString => NoString
      case GotString(text, rest) => GotString(front + text, rest)
    }
  }

  /** The character a two-character escape stands for. */
  function SimpleEscape(e: char): Option<char> {
    if e == '"' || e == '\\' || e == '/' then Some(e)
    else if e == 'n' then Some('\n')
    else if e == 'r' then Some('\r')
    else if e == 't' then Some('\t')
    else if e == 'b' then Some(8 as char)
    else if e == 'f' then Some(12 as char)
    else None
  }

  /** The bytes the lexer appends for a `\u` escape: one code unit at a time, three bytes from 0x800 up,
      each truncated to a byte. */
  function Utf8Bytes(cp: nat): string {
    if cp < 0x80 then [cp as char]
    else if cp < 0x800 then [(0xc0 + cp / 0x40) as char, (0x80 + cp % 0x40) as char]
    else [(0xe0 + cp / 0x1000 % 0x20) as char, (0x80 + cp / 0x40 % 0x40) as char, (0x80 + cp % 0x40) as char]
  }

  /** An escape, after its backslash: the bytes it stands for. */
  function ScanEscape(t: string): (r: Scanned)
    requires t != []
    ensures r.GotString? ==> |r.rest| < |t|
  {
    if t[0] == 'u' then
      if |t| < 5 then NoString else GotString(Utf8Bytes(HexToUnsigned(t[1..5])), t[5..])
    else
      match SimpleEscape(t[0])
      case None => NoString
      case Some(c) => GotString([c], t[1..])
  }

  /** The rest of a string literal, after its opening quote. */
  function StringBody(t: string): (r: Scanned)
    ensures r.GotString? ==> |r.rest| < |t|
  {
    if t == [] then NoString
    else if t[0] == '"' then GotString([], t[1..])
    else if t[0] == '\\' && |t| > 1 then
      match ScanEscape(t[1..])
      case NoString => NoString
      case GotString(piece, rest) => StringBody(rest).Prepend(piece)
    else StringBody(t[1..]).Prepend([t[0]])
  }

  /** `Lexer::parse_string` on the remaining input. */
  function ScanString(t: string): (r: Scanned)
    ensures r.GotString? ==> |r.rest| < |t|
  {
    var u := SkipSpace(t);
    if u == [] || u[0] != '"' then NoString else StringBody(u[1..])
  }

  // ---- What the escapes stand for ---------------------------------------------------------------

  /** The two-character escapes of RFC 8259, section 7, and no others. */
  lemma SimpleEscapesAre(e: char)
    ensures SimpleEscape(e).Some? <==> e in "\"\\/bfnrt"
    ensures e in "\"\\/" ==> SimpleEscape(e) == Some(e)
    ensures SimpleEscape('b') == Some(0x08 as char) && SimpleEscape('t') == Some(0x09 as char) && SimpleEscape('n') == Some(0x0a as char)
    ensures SimpleEscape('f') == Some(0x0c as char) && SimpleEscape('r') == Some(0x0d as char)
  {
  }

  /** The UTF-8 bytes of a code unit: what they are, and that they decode to it. */
  predicate IsUtf8Of(b: string, cp: nat) {
    if cp < 0x80 then |b| == 1 && b[0] as int == cp
    else if cp < 0x800 then
      && |b| == 2 && 0xc0 <= b[0] as int < 0xe0 && 0x80 <= b[1] as int < 0xc0
      && (b[0] as int - 0xc0) * 0x40 + (b[1] as int - 0x80) == cp
    else
      && |b| == 3 && 0xe0 <= b[0] as int < 0xf0 && 0x80 <= b[1] as int < 0xc0 && 0x80 <= b[2] as int < 0xc0
      && (b[0] as int - 0xe0) * 0x1000 + (b[1] as int - 0x80) * 0x40 + (b[2] as int - 0x80) == cp
  }

  lemma Utf8BytesDecode(cp: nat)
    requires cp < 0x1_0000
    ensures IsUtf8Of(Utf8Bytes(cp), cp)
  {
    var low, middle := cp % 0x40, cp / 0x40 % 0x40;
    var high := cp / 0x40 / 0x40;
    assert cp / 0x1000 == high && high < 0x10;
    assert cp == 0x40 * (cp / 0x40) + low && cp / 0x40 == 0x40 * high + middle;
  }

  /** A string literal with one `\u` escape of four hex digits is read as the UTF-8 bytes of the code unit they denote. */
  lemma UnicodeEscapeIsUtf8(h: string, t: string)
    requires |h| == 4 && forall k :: 0 <= k < 4 ==> IsHexDigit(h[k])
    ensures var r := ScanString("\"\\u" + h + "\"" + t);
      && r.GotString? && r.rest == t
      && IsUtf8Of(r.text, 0x1000 * HexValue(h[0]) + 0x100 * HexValue(h[1]) + 0x10 * HexValue(h[2]) + HexValue(h[3]))
  {
    hide StringBody, Utf8Bytes, HexToUnsigned, IsHexDigit, HexValue, IsUtf8Of;
    var cp := HexToUnsigned(h);
    HexIsPositional(h);
    Utf8BytesDecode(cp);
    var u := "\"\\u" + h + "\"" + t;
    SkipsNothing(u);
    assert u[1..] == "\\u" + h + ("\"" + t);
    BodyOfHexEscape(h, "\"" + t);
    QuoteEnds(t);
    assert Utf8Bytes(cp) + [] == Utf8Bytes(cp);
  }

  lemma QuoteEnds(t: string)
    ensures StringBody("\"" + t) == GotString([], t)
  {
    assert ("\"" + t)[1..] == t;
  }

  /** A string of printable characters without quote and backslash is quoted as it is. */
  lemma PlainIsQuotedAsIs(s: string)
    requires forall k :: 0 <= k < |s| ==> s[k] as int >= 0x20 && s[k] != '"' && s[k] != '\\'
    ensures Quote(s) == "\"" + s + "\""
  {
    PlainIsNotEscaped(s);
  }

  lemma {:induction false} PlainIsNotEscaped(s: string)
    requires forall k :: 0 <= k < |s| ==> s[k] as int >= 0x20 && s[k] != '"' && s[k] != '\\'
    ensures EscapeAll(s) == s
  {
    if s != [] {
      PlainIsNotEscaped(s[1..]);
      assert Escape(s[0]) == [s[0]];
    }
  }

  /** A quoted string holds no control character. */
  lemma {:induction false} QuotedIsPrintable(s: string)
    ensures forall k :: 0 <= k < |Quote(s)| ==> Quote(s)[k] as int >= 0x20
  {
    EscapedIsPrintable(s);
  }

  lemma {:induction false} EscapedIsPrintable(s: string)
    ensures forall k :: 0 <= k < |EscapeAll(s)| ==> EscapeAll(s)[k] as int >= 0x20
  {
    if s != [] {
      hide Escape;
      CharacterIsPrintable(s[0]);
      EscapedIsPrintable(s[1..]);
    }
  }

  lemma CharacterIsPrintable(c: char)
    ensures forall k :: 0 <= k < |Escape(c)| ==> Escape(c)[k] as int >= 0x20
  {
  }

  // ---- The two are inverse ----------------------------------------------------------------------

  lemma BodyOfPlain(c: char, t: string)
    requires c != '"' && c != '\\'
    ensures StringBody([c] + t) == StringBody(t).Prepend([c])
  {
    var u := [c] + t;
    assert u[0] == c && u[1..] == t;
  }

  lemma BodyOfEscape(e: string, piece: string, t: string)
    requires e != [] && ScanEscape(e + t) == GotString(piece, t)
    ensures StringBody("\\" + e + t) == StringBody(t).Prepend(piece)
  {
    var u := "\\" + e + t;
    assert u[0] == '\\' && u[1..] == e + t;
  }

  lemma BodyOfSimpleEscape(e: char, t: string)
    requires SimpleEscape(e).Some? && e != 'u'
    ensures StringBody(['\\', e] + t) == StringBody(t).Prepend([SimpleEscape(e).value])
  {
    assert ([e] + t)[1..] == t;
    BodyOfEscape([e], [SimpleEscape(e).value], t);
    assert "\\" + [e] + t == ['\\', e] + t;
  }

  lemma BodyOfHexEscape(h: string, t: string)
    requires |h| == 4
    ensures StringBody("\\u" + h + t) == StringBody(t).Prepend(Utf8Bytes(HexToUnsigned(h)))
  {
    var e := "u" + h;
    assert (e + t)[1..5] == h && (e + t)[5..] == t;
    BodyOfEscape(e, Utf8Bytes(HexToUnsigned(h)), t);
    assert "\\" + e + t == "\\u" + h + t;
  }

  lemma EscapeReadsBack(c: char, t: string)
    ensures StringBody(Escape(c) + t) == StringBody(t).Prepend([c])
  {
    if c == '"' {
      BodyOfSimpleEscape('"', t);
    } else if c == '\\' {
      BodyOfSimpleEscape('\\', t);
    } else if c == '\n' {
      BodyOfSimpleEscape('n', t);
    } else if c == '\r' {
      BodyOfSimpleEscape('r', t);
    } else if c == '\t' {
      BodyOfSimpleEscape('t', t);
    } else if c as int < 0x20 {
      HexInvertsHex4(c as int);
      BodyOfHexEscape(Hex4(c as int), t);
      assert Utf8Bytes(c as int) == [c];
    } else {
      BodyOfPlain(c, t);
    }
  }

  lemma {:induction false} StringBodyInvertsEscape(s: string, t: string)
    ensures StringBody(EscapeAll(s) + "\"" + t) == GotString(s, t)
  {
    if s == [] {
      assert (EscapeAll(s) + "\"" + t)[1..] == t;
    } else {
      var tail := EscapeAll(s[1..]) + "\"" + t;
      assert EscapeAll(s) + "\"" + t == Escape(s[0]) + tail;
      EscapeReadsBack(s[0], tail);
      StringBodyInvertsEscape(s[1..], t);
      assert [s[0]] + s[1..] == s;
    }
  }

  /** Reading a quoted string gives it back and stops exactly behind it, whatever follows
      and whatever whitespace stands before it. */
  lemma ScanInvertsQuote(ws: string, s: string, t: string)
    requires AllSpace(ws)
    ensures ScanString(ws + Quote(s) + t) == GotString(s, t)
  {
    hide StringBody, EscapeAll, SkipSpace;
    assert ws + Quote(s) + t == ws + (Quote(s) + t);
    SkipSpaceDrops(ws, Quote(s) + t);
    SkipsNothing(Quote(s) + t);
    assert (Quote(s) + t)[1..] == EscapeAll(s) + "\"" + t;
    StringBodyInvertsEscape(s, t);
  }

  /** No quoted form is a proper prefix of another, and different strings have different quoted forms. */
  lemma QuotesArePrefixFree(a: string, x: string, b: string, y: string)
    requires Quote(a) + x == Quote(b) + y
    ensures a == b && x == y
  {
    hide StringBody, EscapeAll;
    assert (Quote(a) + x)[1..] == EscapeAll(a) + "\"" + x;
    assert (Quote(b) + y)[1..] == EscapeAll(b) + "\"" + y;
    StringBodyInvertsEscape(a, x);
    StringBodyInvertsEscape(b, y);
  }
}
