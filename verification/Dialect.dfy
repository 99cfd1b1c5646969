/** The accepted language, declared: what spells a value, and where a reader that takes all it can stops. The parser
    accepts exactly this. */
module Dialect {
  import opened Chars
  import opened Strings
  import opened Numbers
  import opened Json
  import opened Grammar

  // ---- Numbers ----------------------------------------------------------------------------------

  predicate HasDigit(t: string) {
    exists k :: 0 <= k < |t| && IsDigit(t[k])
  }

  predicate HasDot(t: string) {
    exists k :: 0 <= k < |t| && t[k] == '.'
  }

  predicate HasMark(t: string) {
    exists k :: 0 <= k < |t| && IsExpMark(t[k])
  }

  predicate AtMostOneDot(t: string) {
    forall j, k :: 0 <= j < k < |t| && t[j] == '.' ==> t[k] != '.'
  }

  predicate AtMostOneMark(t: string) {
    forall j, k :: 0 <= j < k < |t| && IsExpMark(t[j]) ==> !IsExpMark(t[k])
  }

  /** A character of a number behind its sign: another sign stands behind an exponent mark only. */
  predicate InNumber(t: string, k: nat)
    requires k < |t|
  {
    IsDigit(t[k]) || t[k] == '.' || IsExpMark(t[k]) || (IsSign(t[k]) && k > 0 && IsExpMark(t[k - 1]))
  }

  /** Digits, at most one dot and at most one exponent mark in any order. */
  predicate IsUnsigned(t: string) {
    (forall k :: 0 <= k < |t| ==> InNumber(t, k)) && AtMostOneDot(t) && AtMostOneMark(t)
  }

  /** A number: a sign or none, any number of leading zeros, at least one digit. */
  predicate SpellsNumber(tok: string) {
    IsUnsigned(tok[SignLength(tok)..]) && HasDigit(tok)
  }

  /** A character that a reader takes into a number that has come this far. */
  predicate Continues(tok: string, c: char) {
    || IsDigit(c)
    || (c == '.' && !HasDot(tok))
    || (IsExpMark(c) && !HasMark(tok))
    || (IsSign(c) && tok != [] && IsExpMark(tok[|tok| - 1]))
  }

  predicate NumberEnds(tok: string, rest: string) {
    rest == [] || !Continues(tok, rest[0])
  }

  /** What is left of an unsigned number after the flags of its beginning. */
  predicate UnsignedRest(t: string, dot: bool, exp: bool) {
    IsUnsigned(t) && (dot ==> !HasDot(t)) && (exp ==> !HasMark(t))
  }

  lemma MarksAre(c: char)
    ensures IsSign(c) <==> c == '+' || c == '-'
    ensures IsExpMark(c) <==> c == 'e' || c == 'E'
  {
  }

  /** No character is of two kinds. */
  lemma CharKinds(c: char)
    ensures IsSign(c) ==> !IsDigit(c) && !IsExpMark(c) && c != '.'
    ensures IsExpMark(c) ==> !IsDigit(c) && c != '.'
    ensures IsDigit(c) ==> c != '.'
  {
  }

  /** One turn of the number loop takes the first character, and the sign behind an exponent mark. */
  lemma UnsignedStep(t: string, dot: bool, exp: bool)
    requires t != []
    ensures UnsignedRest(t, dot, exp) <==>
      Takes(t[0], dot, exp) && UnsignedRest(t[TurnLength(t)..], dot || t[0] == '.', exp || IsExpMark(t[0]))
  {
    hide IsDigit, IsSign, IsExpMark, AtMostOneDot, AtMostOneMark, HasDot, HasMark;
    CharKinds(t[0]);
    if |t| > 1 {
      CharKinds(t[1]);
    }
    CharactersStep(t);
    DotsStep(t);
    MarksStep(t);
  }

  lemma CharactersStep(t: string)
    requires t != []
    ensures var k := TurnLength(t);
      var u := t[k..];
      (forall j :: 0 <= j < |t| ==> InNumber(t, j)) <==>
        (IsDigit(t[0]) || t[0] == '.' || IsExpMark(t[0])) && forall j :: 0 <= j < |u| ==> InNumber(u, j)
  {
    hide IsDigit, IsSign, IsExpMark;
    CharKinds(t[0]);
    var k := TurnLength(t);
    var u := t[k..];
    if |t| > 1 {
      CharKinds(t[1]);
    }
    if forall j :: 0 <= j < |t| ==> InNumber(t, j) {
      assert InNumber(t, 0);
      forall j | 0 <= j < |u| ensures InNumber(u, j) {
        assert InNumber(t, j + k);
      }
    }
    if (IsDigit(t[0]) || t[0] == '.' || IsExpMark(t[0])) && forall j :: 0 <= j < |u| ==> InNumber(u, j) {
      forall j | 0 <= j < |t| ensures InNumber(t, j) {
        if j >= k {
          assert InNumber(u, j - k);
        }
      }
    }
  }

  lemma DotsStep(t: string)
    requires t != []
    ensures var u := t[TurnLength(t)..];
      && (HasDot(t) <==> t[0] == '.' || HasDot(u))
      && (AtMostOneDot(t) <==> AtMostOneDot(u) && !(t[0] == '.' && HasDot(u)))
  {
    hide IsDigit, IsExpMark;
    var k := TurnLength(t);
    var u := t[k..];
    assert k == 2 ==> t[1] != '.';
    assert forall j :: 0 <= j < |u| ==> u[j] == t[j + k];
    assert forall j :: k <= j < |t| ==> t[j] == u[j - k];
  }

  lemma MarksStep(t: string)
    requires t != []
    ensures var u := t[TurnLength(t)..];
      && (HasMark(t) <==> IsExpMark(t[0]) || HasMark(u))
      && (AtMostOneMark(t) <==> AtMostOneMark(u) && !(IsExpMark(t[0]) && HasMark(u)))
  {
    hide IsDigit, IsSign, IsExpMark;
    var k := TurnLength(t);
    var u := t[k..];
    if |t| > 1 {
      CharKinds(t[1]);
    }
    assert k == 2 ==> !IsExpMark(t[1]);
    assert forall j :: 0 <= j < |u| ==> u[j] == t[j + k];
    assert forall j :: k <= j < |t| ==> t[j] == u[j - k];
  }

  /** The loop takes all of a text exactly if it is an unsigned number, and its flags tell what is in it. */
  lemma {:induction false} ScansUnsigned(t: string, digit: bool, dot: bool, exp: bool)
    ensures ScanDigits(t, digit, dot, exp).len == |t| <==> UnsignedRest(t, dot, exp)
    ensures UnsignedRest(t, dot, exp) ==>
      ScanDigits(t, digit, dot, exp) == NumScan(|t|, digit || HasDigit(t), dot || HasDot(t), exp || HasMark(t))
    decreases |t|
  {
    hide ScanDigits, UnsignedRest, Takes;
    if t == [] {
      TakesNothing(t, digit, dot, exp);
      EmptyIsUnsigned(dot, exp);
    } else {
      UnsignedStep(t, dot, exp);
      if Takes(t[0], dot, exp) {
        var k := TurnLength(t);
        TakesOne(t, digit, dot, exp);
        ScansUnsigned(t[k..], digit || IsDigit(t[0]), dot || t[0] == '.', exp || IsExpMark(t[0]));
        HasInTurn(t);
      } else {
        TakesNothing(t, digit, dot, exp);
      }
    }
  }

  lemma EmptyIsUnsigned(dot: bool, exp: bool)
    ensures UnsignedRest([], dot, exp)
  {
  }

  lemma HasInTurn(t: string)
    requires t != []
    ensures var u := t[TurnLength(t)..];
      && (HasDigit(t) <==> IsDigit(t[0]) || HasDigit(u))
      && (HasDot(t) <==> t[0] == '.' || HasDot(u))
      && (HasMark(t) <==> IsExpMark(t[0]) || HasMark(u))
  {
    hide IsDigit, IsSign, IsExpMark, AtMostOneDot, AtMostOneMark, HasDot, HasMark;
    var k := TurnLength(t);
    var u := t[k..];
    DotsStep(t);
    MarksStep(t);
    if |t| > 1 {
      CharKinds(t[1]);
    }
    assert k == 2 ==> !IsDigit(t[1]);
    assert forall j :: 0 <= j < |u| ==> u[j] == t[j + k];
    assert forall j :: k <= j < |t| ==> t[j] == u[j - k];
  }

  /** Behind an unsigned number the loop goes on exactly where the number can be continued. */
  lemma {:induction false} ScanStops(t: string, rest: string, digit: bool, dot: bool, exp: bool)
    requires ScanDigits(t, digit, dot, exp).len == |t|
    ensures var scan := ScanDigits(t, digit, dot, exp);
      var stops := rest == [] || !(Takes(rest[0], scan.dot, scan.exp) || (IsSign(rest[0]) && t != [] && IsExpMark(t[|t| - 1])));
      && (ScanDigits(t + rest, digit, dot, exp).len == |t| <==> stops)
      && (stops ==> ScanDigits(t + rest, digit, dot, exp) == scan)
    decreases |t|
  {
    hide ScanDigits, TurnLength, Takes, IsDigit, IsExpMark;
    var all := t + rest;
    if t == [] {
      assert all == rest;
      TakesNothing(t, digit, dot, exp);
      if rest == [] || !Takes(rest[0], dot, exp) {
        TakesNothing(rest, digit, dot, exp);
      } else {
        TakesOne(rest, digit, dot, exp);
      }
    } else {
      if !Takes(t[0], dot, exp) {
        TakesNothing(t, digit, dot, exp);
      }
      TakesOne(t, digit, dot, exp);
      TakesOne(all, digit, dot, exp);
      TurnOfJoined(t, rest);
      var k := TurnLength(t);
      if TurnLength(all) == k {
        assert all[k..] == t[k..] + rest;
        ScanStops(t[k..], rest, digit || IsDigit(t[0]), dot || t[0] == '.', exp || IsExpMark(t[0]));
      }
    }
  }

  /** More text behind a turn changes it only where a sign follows an exponent mark at the end. */
  lemma TurnOfJoined(t: string, rest: string)
    requires t != []
    ensures var k, all := TurnLength(t), TurnLength(t + rest);
      var signed := rest != [] && IsSign(rest[0]) && IsExpMark(t[|t| - 1]);
      && (if |t| == 1 && signed then all == 2 else all == k)
      && (if k == |t| then signed ==> |t| == 1 else t[k..][|t| - k - 1] == t[|t| - 1])
  {
  }

  /** A number is scanned whole, with a digit, exactly if it is spelled as one and ends there. */
  lemma ScansNumber(tok: string, rest: string)
    ensures ScanNumber(tok + rest).digit && ScanNumber(tok + rest).len == |tok| <==> SpellsNumber(tok) && NumberEnds(tok, rest)
    ensures SpellsNumber(tok) <==> IsNumberToken(tok)
    ensures SpellsNumber(tok) && NumberEnds(tok, rest) ==> ScanNumber(tok + rest) == ScanNumber(tok)
  {
    hide ScanDigits;
    if tok != [] {
      var k := SignLength(tok);
      var body := tok[k..];
      assert (tok + rest)[k..] == body + rest;
      ScansUnsigned(body, false, false, false);
      HasBehindSign(tok);
      if ScanNumber(tok + rest).len == |tok| {
        ScannedIsToken(tok + rest);
        assert (tok + rest)[..|tok|] == tok;
      }
      if ScanDigits(body, false, false, false).len == |body| {
        ScanStops(body, rest, false, false, false);
      }
    } else {
      ScannedIsToken(rest);
      assert tok + rest == rest;
      if ScanNumber(rest).digit {
        DigitMeansLonger(rest);
      }
      NoNumber();
    }
  }

  lemma NoNumber()
    ensures !SpellsNumber([]) && !IsNumberToken([])
  {
  }

  lemma HasBehindSign(tok: string)
    requires tok != []
    ensures var body := tok[SignLength(tok)..];
      && (HasDigit(tok) <==> HasDigit(body)) && (HasDot(tok) <==> HasDot(body)) && (HasMark(tok) <==> HasMark(body))
      && (body != [] ==> body[|body| - 1] == tok[|tok| - 1])
  {
    hide IsDigit, IsSign, IsExpMark;
    var k := SignLength(tok);
    var body := tok[k..];
    CharKinds(tok[0]);
    assert forall j :: 0 <= j < |body| ==> body[j] == tok[j + k];
    assert forall j :: k <= j < |tok| ==> tok[j] == body[j - k];
  }

  // ---- Strings ----------------------------------------------------------------------------------

  /** A piece of a string literal: any character but a quote or a backslash, a two-character escape, or `\u` and any
      four characters. */
  datatype Piece = Plain(c: char) | Escaped(e: char) | Unicode(four: string)
  {
    predicate Ok() {
      match this
      case Plain(c) => c != '"' && c != '\\'
      case Escaped(e) => SimpleEscape(e).Some?
      case Unicode(four) => |four| == 4
    }

    function Written(): string {
      match this
      case Plain(c) => [c]
      case Escaped(e) => ['\\', e]
      case Unicode(four) => "\\u" + four
    }

    /** The bytes it stands for. */
    function Bytes(): string
      requires Ok()
    {
      match this
      case Plain(c) => [c]
      case Escaped(e) => [SimpleEscape(e).value]
      case Unicode(four) => Utf8Bytes(HexToUnsigned(four))
    }
  }

  predicate PiecesOk(ps: seq<Piece>) {
    forall k :: 0 <= k < |ps| ==> ps[k].Ok()
  }

  function PiecesWritten(ps: seq<Piece>): string {
    if ps == [] then [] else ps[0].Written() + PiecesWritten(ps[1..])
  }

  function PiecesBytes(ps: seq<Piece>): string
    requires PiecesOk(ps)
  {
    if ps == [] then [] else ps[0].Bytes() + PiecesBytes(ps[1..])
  }

  function LiteralWritten(ps: seq<Piece>): string {
    "\"" + PiecesWritten(ps) + "\""
  }

  lemma PieceReads(p: Piece, t: string)
    requires p.Ok()
    ensures StringBody(p.Written() + t) == StringBody(t).Prepend(p.Bytes())
  {
    match p
    case Plain(c) => BodyOfPlain(c, t);
    case Escaped(e) => BodyOfSimpleEscape(e, t);
    case Unicode(four) => BodyOfHexEscape(four, t);
  }

  lemma {:induction false} PiecesRead(ps: seq<Piece>, rest: string)
    requires PiecesOk(ps)
    ensures StringBody(PiecesWritten(ps) + "\"" + rest) == GotString(PiecesBytes(ps), rest)
  {
    if ps == [] {
      assert ("" + "\"" + rest)[1..] == rest;
    } else {
      var tail := PiecesWritten(ps[1..]) + "\"" + rest;
      assert PiecesWritten(ps) + "\"" + rest == ps[0].Written() + tail;
      PieceReads(ps[0], tail);
      PiecesRead(ps[1..], rest);
    }
  }

  /** The first piece of a string body that goes on. */
  lemma FirstPiece(t: string) returns (p: Piece, tail: string)
    requires StringBody(t).GotString? && t[0] != '"'
    ensures p.Ok() && t == p.Written() + tail && |tail| < |t| && StringBody(tail).GotString?
    ensures StringBody(t) == StringBody(tail).Prepend(p.Bytes())
  {
    if t[0] == '\\' && |t| > 1 {
      if t[1] == 'u' {
        p, tail := Unicode(t[2..6]), t[6..];
        SixthCut(t);
      } else {
        p, tail := Escaped(t[1]), t[2..];
        assert t == ['\\', t[1]] + t[2..];
      }
    } else {
      p, tail := Plain(t[0]), t[1..];
      EndsInBackslash(t);
    }
  }

  lemma SixthCut(t: string)
    requires |t| >= 6 && t[0] == '\\' && t[1] == 'u'
    ensures t[1..][1..5] == t[2..6] && t[1..][5..] == t[6..] && t == "\\u" + t[2..6] + t[6..]
  {
    assert t[..2] == "\\u";
    assert forall k :: 0 <= k < 4 ==> t[1..][1..5][k] == t[k + 2];
    assert forall k :: 0 <= k < |t| - 6 ==> t[1..][5..][k] == t[k + 6];
  }

  lemma EndsInBackslash(t: string)
    requires StringBody(t).GotString?
    ensures t[0] == '\\' ==> |t| > 1
  {
    if |t| == 1 {
      assert t[1..] == [];
    }
  }

  lemma {:induction false} BodySpelled(t: string) returns (ps: seq<Piece>)
    requires StringBody(t).GotString?
    ensures PiecesOk(ps) && t == PiecesWritten(ps) + "\"" + StringBody(t).rest && PiecesBytes(ps) == StringBody(t).text
    decreases |t|
  {
    hide StringBody;
    BodyEnds(t);
    if t[0] == '"' {
      ps := [];
      assert t == [] + "\"" + t[1..];
    } else {
      var p, tail := FirstPiece(t);
      var more := BodySpelled(tail);
      ps := [p] + more;
      assert ps[1..] == more;
      assert p.Written() + (PiecesWritten(more) + "\"" + StringBody(t).rest) == PiecesWritten(ps) + "\"" + StringBody(t).rest;
    }
  }

  lemma BodyEnds(t: string)
    requires StringBody(t).GotString?
    ensures t != [] && (t[0] == '"' ==> StringBody(t) == GotString([], t[1..]))
  {
  }

  /** The whitespace a reader skips. */
  lemma {:induction false} SkippedSpace(t: string) returns (lead: string)
    ensures AllSpace(lead) && t == lead + SkipSpace(t)
  {
    if t != [] && IsSpace(t[0]) {
      var more := SkippedSpace(t[1..]);
      lead := [t[0]] + more;
    } else {
      lead := [];
    }
  }

  predicate IsLiteral(t: string, lead: string, ps: seq<Piece>, rest: string) {
    AllSpace(lead) && PiecesOk(ps) && t == lead + LiteralWritten(ps) + rest
  }

  /** Whitespace and a string literal for these bytes, then the rest. */
  ghost predicate SpellsString(t: string, s: string, rest: string) {
    exists lead, ps: seq<Piece> :: IsLiteral(t, lead, ps, rest) && PiecesBytes(ps) == s
  }

  lemma LiteralReads(lead: string, ps: seq<Piece>, rest: string)
    requires AllSpace(lead) && PiecesOk(ps)
    ensures ScanString(lead + LiteralWritten(ps) + rest) == GotString(PiecesBytes(ps), rest)
  {
    hide StringBody, SkipSpace;
    var u := LiteralWritten(ps) + rest;
    assert lead + LiteralWritten(ps) + rest == lead + u;
    SkipSpaceDrops(lead, u);
    SkipsNothing(u);
    assert u[1..] == PiecesWritten(ps) + "\"" + rest;
    PiecesRead(ps, rest);
  }

  lemma LiteralSpelled(t: string) returns (lead: string, ps: seq<Piece>)
    requires ScanString(t).GotString?
    ensures IsLiteral(t, lead, ps, ScanString(t).rest) && PiecesBytes(ps) == ScanString(t).text
  {
    lead := SkippedSpace(t);
    var u := SkipSpace(t);
    hide StringBody, SkipSpace, PiecesWritten, PiecesBytes, AllSpace;
    ps := BodySpelled(u[1..]);
    var rest := StringBody(u[1..]).rest;
    assert u == "\"" + (PiecesWritten(ps) + "\"" + rest);
    assert t == lead + LiteralWritten(ps) + rest;
  }

  /** The lexer reads a string exactly where one is spelled. */
  lemma StringsAreSpelled(t: string, s: string, rest: string)
    ensures ScanString(t) == GotString(s, rest) <==> SpellsString(t, s, rest)
  {
    hide ScanString, LiteralWritten;
    if ScanString(t) == GotString(s, rest) {
      var lead, ps := LiteralSpelled(t);
    }
    if SpellsString(t, s, rest) {
      var lead, ps: seq<Piece> :| IsLiteral(t, lead, ps, rest) && PiecesBytes(ps) == s;
      LiteralReads(lead, ps, rest);
    }
  }

  // ---- Values -----------------------------------------------------------------------------------

  /** A text for a value, with the whitespace in it. */
  datatype Spelling =
    | Word(lead: string, word: Json)
    | Numeral(lead: string, tok: string)
    | Literal(lead: string, pieces: seq<Piece>)
    | Bracketed(lead: string, obj: bool, items: seq<Entry>, close: string)

  /** An item of a container; `comma` is the whitespace before the comma in front of it. */
  datatype Entry = Entry(comma: string, name: Label, value: Spelling)

  /** The name of a member, with the whitespace before it and before its colon. */
  datatype Label = Label(lead: string, pieces: seq<Piece>, colon: string)

  predicate NameOk(n: Label) {
    AllSpace(n.lead) && PiecesOk(n.pieces) && AllSpace(n.colon)
  }

  predicate Ok(c: Spelling)
    decreases c
  {
    && AllSpace(c.lead)
    && match c
       case Word(_, v) => v.Null? || v.Bool?
       case Numeral(_, tok) => SpellsNumber(tok)
       case Literal(_, pieces) => PiecesOk(pieces)
       case Bracketed(_, obj, items, close) => AllSpace(close) && ItemsOk(obj, items)
  }

  predicate ItemsOk(obj: bool, items: seq<Entry>)
    decreases items
  {
    forall k :: 0 <= k < |items| ==> ItemOk(obj, items[k])
  }

  predicate ItemOk(obj: bool, item: Entry)
    decreases item
  {
    AllSpace(item.comma) && (obj ==> NameOk(item.name)) && Ok(item.value)
  }

  function Written(c: Spelling): string
    requires Ok(c)
    decreases c, 1
  {
    match c
    case Word(lead, v) => lead + ScalarToken(v)
    case Numeral(lead, tok) => lead + tok
    case Literal(lead, pieces) => lead + LiteralWritten(pieces)
    case Bracketed(lead, obj, items, close) => lead + [OpenChar(obj)] + ItemsWritten(obj, items) + close + [CloseChar(obj)]
  }

  function NameWritten(obj: bool, n: Label): string {
    if obj then n.lead + LiteralWritten(n.pieces) + n.colon + ":" else []
  }

  /** The items from the first on. */
  function ItemsWritten(obj: bool, items: seq<Entry>): string
    requires ItemsOk(obj, items)
    decreases items, 0
  {
    if items == [] then []
    else
      assert ItemOk(obj, items[0]);
      NameWritten(obj, items[0].name) + Written(items[0].value) + MoreWritten(obj, items[1..])
  }

  /** Items behind others, each with its comma. */
  function MoreWritten(obj: bool, items: seq<Entry>): string
    requires ItemsOk(obj, items)
    decreases items, 1
  {
    if items == [] then [] else items[0].comma + "," + ItemsWritten(obj, items)
  }

  function Meaning(c: Spelling): Json
    requires Ok(c)
    decreases c, 1
  {
    match c
    case Word(_, v) => v
    case Numeral(_, tok) => if HasDot(tok) || HasMark(tok) then Real(tok) else Int(DecimalToInt32(tok))
    case Literal(_, pieces) => Str(PiecesBytes(pieces))
    case Bracketed(_, obj, items, _) => if obj then Obj(Names(obj, items), Meanings(obj, items)) else Arr(Meanings(obj, items))
  }

  function Meanings(obj: bool, items: seq<Entry>): (r: seq<Json>)
    requires ItemsOk(obj, items)
    ensures |r| == |items|
    decreases items, 0
  {
    if items == [] then []
    else
      assert ItemOk(obj, items[0]);
      [Meaning(items[0].value)] + Meanings(obj, items[1..])
  }

  function Names(obj: bool, items: seq<Entry>): (r: seq<string>)
    requires ItemsOk(obj, items)
    ensures |r| == if obj then |items| else 0
  {
    if items == [] then []
    else
      assert ItemOk(obj, items[0]);
      (if obj then [PiecesBytes(items[0].name.pieces)] else []) + Names(obj, items[1..])
  }

  /** A number takes all it can; everything else ends with itself. */
  predicate Ends(c: Spelling, rest: string) {
    c.Numeral? ==> NumberEnds(c.tok, rest)
  }

  /** The text begins with a spelling of the value, behind which the rest is left. */
  ghost predicate Spells(t: string, v: Json, rest: string) {
    exists c: Spelling :: IsSpelling(c, t, rest) && Meaning(c) == v
  }

  ghost predicate IsSpelling(c: Spelling, t: string, rest: string) {
    Ok(c) && t == Written(c) + rest && Ends(c, rest)
  }

  // ---- Every spelling is accepted ---------------------------------------------------------------

  lemma RealTokens(tok: string)
    requires SpellsNumber(tok)
    ensures IsNumberToken(tok) && (IsRealToken(tok) <==> HasDot(tok) || HasMark(tok))
  {
    hide ScanDigits, HasDigit, HasDot, HasMark;
    ScansNumber(tok, []);
    NoNumber();
    ScansUnsigned(tok[SignLength(tok)..], false, false, false);
    HasBehindSign(tok);
  }

  lemma NumberParses(tok: string, rest: string)
    requires SpellsNumber(tok) && NumberEnds(tok, rest)
    ensures ParseByChar(tok + rest) == Parsed(if HasDot(tok) || HasMark(tok) then Real(tok) else Int(DecimalToInt32(tok)), rest)
  {
    hide ScanNumber, DecimalToInt32, SpellsNumber, NumberEnds, HasDot, HasMark;
    RealTokens(tok);
    ScansNumber(tok, rest);
    NumberTokenStarts(tok);
    var u := tok + rest;
    assert u[0] == tok[0];
    assert u[..|tok|] == tok && u[|tok|..] == rest;
  }

  lemma DelimitedEnds(c: Spelling, rest: string)
    requires Delimited(rest)
    ensures Ends(c, rest)
  {
  }

  /** What stands behind the leading whitespace of a spelling. */
  function Core(c: Spelling): string
    requires Ok(c)
  {
    match c
    case Word(_, v) => ScalarToken(v)
    case Numeral(_, tok) => tok
    case Literal(_, pieces) => LiteralWritten(pieces)
    case Bracketed(_, obj, items, close) => [OpenChar(obj)] + ItemsWritten(obj, items) + close + [CloseChar(obj)]
  }

  lemma WrittenStarts(c: Spelling)
    requires Ok(c)
    ensures Written(c) == c.lead + Core(c) && Core(c) != [] && !IsSpace(Core(c)[0]) && Core(c)[0] !in "]}"
    ensures Core(c)[0] in "{[" <==> c.Bracketed?
  {
    hide SpellsNumber, ItemsWritten, PiecesWritten, ItemsOk;
    match c
    case Word(_, v) =>
    case Numeral(_, tok) =>
      RealTokens(tok);
      NumberTokenStarts(tok);
    case Literal(_, pieces) =>
    case Bracketed(lead, obj, items, close) =>
      assert lead + ([OpenChar(obj)] + ItemsWritten(obj, items) + close + [CloseChar(obj)])
          == lead + [OpenChar(obj)] + ItemsWritten(obj, items) + close + [CloseChar(obj)];
  }

  lemma ScalarParses(c: Spelling, rest: string)
    requires Ok(c) && Ends(c, rest) && !c.Bracketed?
    ensures ParseByChar(Core(c) + rest) == Parsed(Meaning(c), rest)
  {
    hide ParseByChar, NumberEnds, SpellsNumber, HasDot, HasMark, DecimalToInt32, PiecesWritten, PiecesBytes;
    match c
    case Word(_, v) => WordParses(v, rest);
    case Numeral(_, tok) => NumberParses(tok, rest);
    case Literal(_, pieces) => LiteralParses(pieces, rest);
  }

  lemma WordParses(v: Json, rest: string)
    requires v.Null? || v.Bool?
    ensures ParseByChar(ScalarToken(v) + rest) == Parsed(v, rest)
  {
    hide ParseNumber, ScanString;
    LiteralStops(ScalarToken(v), rest);
  }

  /** The three words and what they mean. */
  lemma WordsAre(rest: string)
    ensures ParseValue("null" + rest) == Parsed(Null, rest)
    ensures ParseValue("true" + rest) == Parsed(Bool(true), rest)
    ensures ParseValue("false" + rest) == Parsed(Bool(false), rest)
  {
    hide ParseByChar, ParseContainer;
    WordParses(Null, rest);
    WordParses(Bool(true), rest);
    WordParses(Bool(false), rest);
    SkipsNothing("null" + rest);
    SkipsNothing("true" + rest);
    SkipsNothing("false" + rest);
  }

  lemma LiteralParses(pieces: seq<Piece>, rest: string)
    requires PiecesOk(pieces)
    ensures ParseByChar(LiteralWritten(pieces) + rest) == Parsed(Str(PiecesBytes(pieces)), rest)
  {
    hide ScanString, PiecesWritten, ParseNumber;
    LiteralReads([], pieces, rest);
    assert [] + LiteralWritten(pieces) + rest == LiteralWritten(pieces) + rest;
  }

  /** The parser takes every spelling for its meaning and stops behind it. */
  lemma {:induction false} SpellingParses(c: Spelling, rest: string)
    requires Ok(c) && Ends(c, rest)
    ensures ParseValue(Written(c) + rest) == Parsed(Meaning(c), rest)
    decreases c, 1
  {
    hide ParseValue, ParseByChar, ParseContainer, ItemsOk, ItemsWritten, Names, Meanings, SpellsNumber, PiecesOk, Meaning, Written, Ok, Ends, Core;
    WrittenStarts(c);
    LeadIsSpace(c);
    if c.Bracketed? {
      ItemsAreOk(c);
      var body := ItemsWritten(c.obj, c.items) + (c.close + [CloseChar(c.obj)] + rest);
      BodyParses(c, rest);
      ParseOpens(c.lead, c.obj, body);
      ContainerWritten(c);
      assert Written(c) + rest == c.lead + [OpenChar(c.obj)] + body;
    } else {
      ScalarParses(c, rest);
      ParseScalarBehind(c.lead, Core(c), rest);
      assert Written(c) + rest == c.lead + (Core(c) + rest);
    }
  }

  lemma ItemsAreOk(c: Spelling)
    requires Ok(c) && c.Bracketed?
    ensures ItemsOk(c.obj, c.items) && AllSpace(c.close)
  {
  }

  lemma ContainerWritten(c: Spelling)
    requires Ok(c) && c.Bracketed?
    ensures Written(c) == c.lead + [OpenChar(c.obj)] + ItemsWritten(c.obj, c.items) + c.close + [CloseChar(c.obj)]
  {
  }

  lemma ParseScalarBehind(lead: string, core: string, rest: string)
    requires AllSpace(lead) && core != [] && !IsSpace(core[0]) && core[0] !in "{["
    ensures ParseValue(lead + (core + rest)) == ParseByChar(core + rest)
  {
    hide ParseByChar, ParseContainer, SkipSpace;
    var u := core + rest;
    assert u[0] == core[0];
    SkipSpaceDrops(lead, u);
    SkipsNothing(u);
  }

  lemma {:induction false} BodyParses(c: Spelling, rest: string)
    requires Ok(c) && c.Bracketed?
    ensures ParseContainer(c.obj, ItemsWritten(c.obj, c.items) + (c.close + [CloseChar(c.obj)] + rest)) == Parsed(Meaning(c), rest)
    decreases c, 0
  {
    hide ParseItems, Match, AfterItems, ItemsWritten, Names, Meanings;
    var tail := c.close + [CloseChar(c.obj)] + rest;
    BehindItems(c.obj, c.close, rest);
    if c.items == [] {
      NothingWritten(c.obj);
      assert [] + tail == tail;
    } else {
      ItemsParse(c.obj, c.items, tail);
      assert Names(c.obj, c.items) + [] == Names(c.obj, c.items) && Meanings(c.obj, c.items) + [] == Meanings(c.obj, c.items);
    }
  }

  lemma NameParses(obj: bool, n: Label, t: string)
    requires obj ==> NameOk(n)
    ensures ParseItemStart(obj, NameWritten(obj, n) + t) == GotString(if obj then PiecesBytes(n.pieces) else [], t)
    ensures obj ==> Match(NameWritten(obj, n) + t, '}') == None
  {
    hide ScanString, Match, PiecesWritten;
    if obj {
      var x := n.colon + [':'] + t;
      assert NameWritten(obj, n) + t == n.lead + LiteralWritten(n.pieces) + x;
      LiteralReads(n.lead, n.pieces, x);
      MatchSees(n.colon, ':', ':', t);
      assert NameWritten(obj, n) + t == n.lead + ['"'] + (PiecesWritten(n.pieces) + "\"" + x);
      MatchSees(n.lead, '"', '}', PiecesWritten(n.pieces) + "\"" + x);
    } else {
      assert [] + t == t;
    }
  }

  lemma {:induction false} ItemsParse(obj: bool, items: seq<Entry>, tail: string)
    requires items != [] && ItemsOk(obj, items) && Delimited(tail)
    ensures ParseItems(obj, ItemsWritten(obj, items) + tail) == AfterItems(obj, tail).Prepend(Names(obj, items), Meanings(obj, items))
    ensures Match(ItemsWritten(obj, items) + tail, CloseChar(obj)) == None
    decreases items, 0
  {
    hide ParseValue, ParseItems, AfterItems, Match, Written, Meaning, Ends, ParseItemStart, NameWritten, Ok, Delimited;
    var first, more := items[0], items[1..];
    var afterValue := MoreWritten(obj, more) + tail;
    var afterName := Written(first.value) + afterValue;
    var text := ItemsWritten(obj, items) + tail;
    assert text == NameWritten(obj, first.name) + afterName;
    NameParses(obj, first.name, afterName);
    var name := if obj then [PiecesBytes(first.name.pieces)] else [];
    if more == [] {
      assert [] + tail == tail;
      assert Meanings(obj, more) == [] && Names(obj, more) == [];
      assert name + [] == name && [Meaning(first.value)] + [] == [Meaning(first.value)];
    } else {
      ItemsParse(obj, more, tail);
      CommaBetween(obj, more, tail);
      PrependItemsTwice(AfterItems(obj, tail), name, [Meaning(first.value)], Names(obj, more), Meanings(obj, more));
    }
    DelimitedEnds(first.value, afterValue);
    SpellingParses(first.value, afterValue);
    ParseItemsStep(obj, text, if obj then name[0] else [], Meaning(first.value), afterName, afterValue);
    if !obj {
      NoName(first.name);
      ValueIsNotClose(first.value, afterValue);
      assert [] + afterName == afterName;
    }
  }

  lemma NoName(n: Label)
    ensures NameWritten(false, n) == []
  {
  }

  lemma ValueIsNotClose(c: Spelling, rest: string)
    requires Ok(c)
    ensures Match(Written(c) + rest, ']') == None
  {
    hide Match, Written, Core, Ok;
    LeadIsSpace(c);
    WrittenStarts(c);
    var x := Core(c)[1..] + rest;
    assert Written(c) + rest == c.lead + [Core(c)[0]] + x;
    MatchSees(c.lead, Core(c)[0], ']', x);
  }

  lemma LeadIsSpace(c: Spelling)
    requires Ok(c)
    ensures AllSpace(c.lead)
  {
  }

  lemma CommaBetween(obj: bool, items: seq<Entry>, tail: string)
    requires items != [] && ItemsOk(obj, items)
    ensures var t := MoreWritten(obj, items) + tail;
      Delimited(t) && AfterItems(obj, t) == ParseItems(obj, ItemsWritten(obj, items) + tail)
  {
    hide ParseItems, Match, ItemsWritten, Ok;
    var ws, x := items[0].comma, ItemsWritten(obj, items) + tail;
    assert MoreWritten(obj, items) + tail == ws + [','] + x;
    MatchSees(ws, ',', ',', x);
    GapDelimits(ws, ',', x);
  }

  // ---- Everything accepted is spelled -----------------------------------------------------------

  lemma ScalarSpelled(lead: string, u: string) returns (c: Spelling)
    requires AllSpace(lead) && (u == [] || !IsSpace(u[0])) && ParseByChar(u).Parsed?
    ensures IsSpelling(c, lead + u, ParseByChar(u).rest) && Meaning(c) == ParseByChar(u).v
  {
    hide ScanString, ParseNumber, PiecesWritten, PiecesBytes, SkipSpace, SpellsNumber, NumberEnds, HasDot, HasMark;
    var v, rest := ParseByChar(u).v, ParseByChar(u).rest;
    if u[0] == '"' {
      var ps := LiteralAt(u);
      c := Literal(lead, ps);
      assert lead + u == lead + LiteralWritten(ps) + rest;
    } else if u[0] in "tfn" {
      c := Word(lead, v);
      assert u == ScalarToken(v) + rest;
      assert lead + u == lead + ScalarToken(v) + rest;
    } else {
      var tok := NumberAt(u);
      c := Numeral(lead, tok);
      assert lead + u == lead + tok + rest;
    }
  }

  lemma LiteralAt(u: string) returns (ps: seq<Piece>)
    requires u != [] && !IsSpace(u[0]) && ScanString(u).GotString?
    ensures PiecesOk(ps) && u == LiteralWritten(ps) + ScanString(u).rest && PiecesBytes(ps) == ScanString(u).text
  {
    hide ScanString, PiecesWritten, PiecesBytes;
    var lead, pieces := LiteralSpelled(u);
    var x := LiteralWritten(pieces) + ScanString(u).rest;
    LeadShows(lead, x);
    assert u == lead + x;
    ps := pieces;
  }

  lemma NumberAt(u: string) returns (tok: string)
    requires ParseNumber(u).Parsed?
    ensures SpellsNumber(tok) && NumberEnds(tok, ParseNumber(u).rest) && u == tok + ParseNumber(u).rest
    ensures ParseNumber(u).v == if HasDot(tok) || HasMark(tok) then Real(tok) else Int(DecimalToInt32(tok))
  {
    hide ScanNumber, DecimalToInt32, SpellsNumber, NumberEnds, HasDot, HasMark;
    var n := ScanNumber(u).len;
    tok := u[..n];
    assert u == tok + u[n..];
    ScansNumber(tok, u[n..]);
    ScannedIsToken(u);
    RealTokens(tok);
  }

  lemma LeadShows(lead: string, x: string)
    requires AllSpace(lead)
    ensures lead != [] ==> IsSpace((lead + x)[0])
    ensures [] + x == x
  {
  }

  /** Whatever the parser accepts is a spelling of the value it gives. */
  lemma {:induction false} ValueSpelled(t: string) returns (c: Spelling)
    requires ParseValue(t).Parsed?
    ensures IsSpelling(c, t, ParseValue(t).rest) && Meaning(c) == ParseValue(t).v
    decreases |t|, 0
  {
    hide ParseByChar, ParseContainer, IsSpelling, Meaning, AllSpace;
    var lead := SkippedSpace(t);
    var u := SkipSpace(t);
    hide SkipSpace;
    if u != [] && (u[0] == '{' || u[0] == '[') {
      c := ContainerSpelled(lead, u[0] == '{', u[1..]);
      assert lead + [u[0]] + u[1..] == t;
    } else {
      c := ScalarSpelled(lead, u);
    }
  }

  lemma {:induction false} ContainerSpelled(lead: string, obj: bool, t: string) returns (c: Spelling)
    requires AllSpace(lead) && ParseContainer(obj, t).Parsed?
    ensures IsSpelling(c, lead + [OpenChar(obj)] + t, ParseContainer(obj, t).rest) && Meaning(c) == ParseContainer(obj, t).v
    decreases |t|, 3
  {
    hide ParseItems, Match, ItemsWritten, Meanings, Names, ItemsOk;
    var rest := ParseContainer(obj, t).rest;
    if Match(t, CloseChar(obj)).Some? {
      var close := MatchedSpace(t, CloseChar(obj));
      c := Bracketed(lead, obj, [], close);
      NothingWritten(obj);
      assert lead + [OpenChar(obj)] + [] + close + [CloseChar(obj)] + rest == lead + [OpenChar(obj)] + t;
    } else {
      var items, close := ItemsSpelled(obj, t);
      assert AreSpelling(obj, t, items, close);
      c := Bracketed(lead, obj, items, close);
      assert lead + [OpenChar(obj)] + ItemsWritten(obj, items) + close + [CloseChar(obj)] + rest == lead + [OpenChar(obj)] + t;
    }
  }

  lemma NothingWritten(obj: bool)
    ensures ItemsOk(obj, []) && ItemsWritten(obj, []) == [] && Meanings(obj, []) == [] && Names(obj, []) == []
  {
  }

  /** A match skips whitespace and takes the character. */
  lemma MatchedSpace(t: string, c: char) returns (ws: string)
    requires Match(t, c).Some?
    ensures AllSpace(ws) && t == ws + [c] + Match(t, c).value
  {
    ws := SkippedSpace(t);
    var u := SkipSpace(t);
    assert u == [c] + u[1..];
  }

  lemma NameSpelled(obj: bool, t: string) returns (n: Label)
    requires ParseItemStart(obj, t).GotString?
    ensures obj ==> NameOk(n) && ParseItemStart(obj, t).text == PiecesBytes(n.pieces)
    ensures t == NameWritten(obj, n) + ParseItemStart(obj, t).rest
  {
    hide ScanString, Match, PiecesWritten;
    if obj {
      var lead, ps := LiteralSpelled(t);
      var rest := ScanString(t).rest;
      var colon := MatchedSpace(rest, ':');
      n := Label(lead, ps, colon);
      assert t == lead + LiteralWritten(ps) + (colon + [':'] + Match(rest, ':').value);
    } else {
      n := Label([], [], []);
      assert [] + t == t;
    }
  }

  /** Items that spell the text of a list, up to its closing bracket. */
  ghost predicate AreSpelling(obj: bool, t: string, items: seq<Entry>, close: string) {
    && items != [] && ItemsOk(obj, items) && AllSpace(close)
    && var r := ParseItems(obj, t);
       && r.Items? && Names(obj, items) == r.names && Meanings(obj, items) == r.elems
       && t == ItemsWritten(obj, items) + close + [CloseChar(obj)] + r.rest
  }

  lemma {:induction false} ItemsSpelled(obj: bool, t: string) returns (items: seq<Entry>, close: string)
    requires ParseItems(obj, t).Items?
    ensures AreSpelling(obj, t, items, close)
    decreases |t|, 2
  {
    hide ParseItems, Match, AfterItems, Written, Meaning, NameWritten, ItemOk, AreSpelling;
    var first, name, tail := FirstSpelled(obj, t);
    if Match(tail, ',').Some? {
      var next := Match(tail, ',').value;
      var comma := MatchedSpace(tail, ',');
      var more;
      AfterComma(obj, tail);
      more, close := ItemsSpelled(obj, next);
      MoreAreSpelled(obj, t, first, tail, comma, more, close);
      items := [first] + WithComma(more, comma);
    } else {
      close := MatchedSpace(tail, CloseChar(obj));
      LastIsSpelled(obj, t, first, tail, close);
      items := [first];
    }
  }

  function NameBytes(obj: bool, item: Entry): seq<string>
    requires ItemOk(obj, item)
  {
    if obj then [PiecesBytes(item.name.pieces)] else []
  }

  /** Items with this whitespace before the comma in front of the first. */
  function WithComma(items: seq<Entry>, comma: string): seq<Entry> {
    if items == [] then [] else [items[0].(comma := comma)] + items[1..]
  }

  lemma MoreAreSpelled(obj: bool, t: string, first: Entry, tail: string, comma: string, more: seq<Entry>, close: string)
    requires ItemOk(obj, first) && AllSpace(comma) && Match(tail, ',').Some?
    requires t == NameWritten(obj, first.name) + Written(first.value) + tail
    requires tail == comma + [','] + Match(tail, ',').value
    requires AreSpelling(obj, Match(tail, ',').value, more, close)
    requires ParseItems(obj, t) == AfterItems(obj, tail).Prepend(NameBytes(obj, first), [Meaning(first.value)])
    ensures AreSpelling(obj, t, [first] + WithComma(more, comma), close)
  {
    hide ParseItems, Match, AfterItems, Written, Meaning, Meanings, Names, ItemsWritten, MoreWritten, NameWritten, Ok, ItemsOk, NameBytes;
    AfterComma(obj, tail);
    CommaIsOk(obj, more, comma);
    ConsUnfolds(obj, first, WithComma(more, comma));
    var r := ParseItems(obj, Match(tail, ',').value);
    Regroup(NameWritten(obj, first.name) + Written(first.value), comma, ItemsWritten(obj, more), close, [CloseChar(obj)], r.rest);
  }

  lemma Regroup(a: string, comma: string, x: string, close: string, bracket: string, rest: string)
    ensures a + (comma + [','] + (x + close + bracket + rest)) == a + (comma + "," + x) + close + bracket + rest
  {
  }

  lemma CommaIsOk(obj: bool, items: seq<Entry>, comma: string)
    requires items != [] && ItemsOk(obj, items) && AllSpace(comma)
    ensures var r := WithComma(items, comma);
      && ItemsOk(obj, r)
      && Meanings(obj, r) == Meanings(obj, items) && Names(obj, r) == Names(obj, items)
      && MoreWritten(obj, r) == comma + "," + ItemsWritten(obj, items)
  {
    hide Written, Meaning, NameWritten, Ok;
    var r := WithComma(items, comma);
    assert ItemOk(obj, items[0]);
    assert r[1..] == items[1..];
  }

  lemma ConsUnfolds(obj: bool, first: Entry, more: seq<Entry>)
    requires ItemOk(obj, first) && ItemsOk(obj, more)
    ensures var r := [first] + more;
      && ItemsOk(obj, r)
      && Meanings(obj, r) == [Meaning(first.value)] + Meanings(obj, more)
      && Names(obj, r) == NameBytes(obj, first) + Names(obj, more)
      && ItemsWritten(obj, r) == NameWritten(obj, first.name) + Written(first.value) + MoreWritten(obj, more)
  {
    hide Written, Meaning, NameWritten, Ok, MoreWritten;
    var r := [first] + more;
    assert r[1..] == more;
  }

  lemma LastIsSpelled(obj: bool, t: string, first: Entry, tail: string, close: string)
    requires ItemOk(obj, first) && AllSpace(close) && Match(tail, CloseChar(obj)).Some?
    requires t == NameWritten(obj, first.name) + Written(first.value) + tail
    requires tail == close + [CloseChar(obj)] + Match(tail, CloseChar(obj)).value
    requires ParseItems(obj, t) == AfterItems(obj, tail).Prepend(NameBytes(obj, first), [Meaning(first.value)])
    ensures AreSpelling(obj, t, [first], close)
  {
    hide ParseItems, Match, AfterItems, Written, Meaning, NameWritten, Ok, ItemOk, ItemsOk, NameBytes;
    BehindItems(obj, close, Match(tail, CloseChar(obj)).value);
    NothingWritten(obj);
    ConsUnfolds(obj, first, []);
    assert [first] + [] == [first];
  }

  /** The first item of a list, and what stands behind it. */
  lemma {:induction false} FirstSpelled(obj: bool, t: string) returns (first: Entry, name: seq<string>, tail: string)
    requires ParseItems(obj, t).Items?
    ensures ItemOk(obj, first) && name == NameBytes(obj, first)
    ensures t == NameWritten(obj, first.name) + Written(first.value) + tail && |tail| < |t|
    ensures ParseItems(obj, t) == AfterItems(obj, tail).Prepend(name, [Meaning(first.value)])
    ensures Match(tail, ',').Some? || Match(tail, CloseChar(obj)).Some?
    decreases |t|, 1
  {
    hide ParseItems, Match, ParseItemStart, ParseValue, AfterItems, Written, Meaning, NameWritten, Ok;
    ItemsStart(obj, t);
    var start := ParseItemStart(obj, t);
    var n := NameSpelled(obj, t);
    tail := ParseValue(start.rest).rest;
    var value := ValueSpelled(start.rest);
    first := Entry([], n, value);
    name := if obj then [PiecesBytes(n.pieces)] else [];
    ParseItemsStep(obj, t, start.text, Meaning(value), start.rest, tail);
    assert t == NameWritten(obj, n) + (Written(value) + tail);
  }

  lemma ItemsStart(obj: bool, t: string)
    requires ParseItems(obj, t).Items?
    ensures ParseItemStart(obj, t).GotString? && ParseValue(ParseItemStart(obj, t).rest).Parsed?
    ensures var afterValue := ParseValue(ParseItemStart(obj, t).rest).rest;
      if Match(afterValue, ',').Some? then ParseItems(obj, Match(afterValue, ',').value).Items?
      else Match(afterValue, CloseChar(obj)).Some?
  {
  }

  // ---- The language -----------------------------------------------------------------------------

  /** The parser gives a value and a rest exactly where the text begins with a spelling of the value that the rest does
      not continue. */
  lemma ParsesExactlySpellings(t: string, v: Json, rest: string)
    ensures ParseValue(t) == Parsed(v, rest) <==> Spells(t, v, rest)
  {
    hide ParseValue, Ok, Written, Meaning, Ends;
    if ParseValue(t) == Parsed(v, rest) {
      var c := ValueSpelled(t);
    }
    if Spells(t, v, rest) {
      var c: Spelling :| IsSpelling(c, t, rest) && Meaning(c) == v;
      SpellingParses(c, rest);
    }
  }

  /** It refuses exactly the texts that begin with no spelling of any value. */
  lemma RefusesExactlyTheRest(t: string)
    ensures ParseValue(t) == NoValue <==> forall v, rest :: !Spells(t, v, rest)
  {
    hide ParseValue, Spells;
    forall v, rest ensures ParseValue(t) == Parsed(v, rest) <==> Spells(t, v, rest) {
      ParsesExactlySpellings(t, v, rest);
    }
    if ParseValue(t).Parsed? {
      assert Spells(t, ParseValue(t).v, ParseValue(t).rest);
    }
  }

  // ---- A text with an empty array ---------------------------------------------------------------

  const STALLING := "[[], 1]"

  /** The text is a document: an empty array and a number in an array. */
  lemma StallingIsAccepted()
    ensures ParseValue(STALLING) == Parsed(Arr([Arr([]), Int(1)]), [])
  {
    hide ParseValue;
    var nameless := Label([], [], []);
    var empty := Entry([], nameless, Bracketed([], false, [], []));
    var one := Entry([], nameless, Numeral(" ", "1"));
    var c := Bracketed([], false, [empty, one], []);
    OneIsSpelled();
    assert [empty, one][1..] == [one] && [one][1..] == [];
    assert Ok(empty.value) && Ok(one.value) && ItemOk(false, empty) && ItemOk(false, one) && Ok(c);
    assert Written(empty.value) == "[]" && Written(one.value) == " 1";
    assert ItemsWritten(false, [one]) == " 1";
    assert MoreWritten(false, [one]) == ", 1";
    assert ItemsWritten(false, [empty, one]) == "[], 1";
    assert Written(c) == STALLING;
    assert Meanings(false, [one]) == [Int(1)];
    assert Meanings(false, [empty, one]) == [Arr([]), Int(1)];
    SpellingParses(c, []);
    assert STALLING + [] == STALLING;
  }

  lemma OneIsSpelled()
    ensures SpellsNumber("1") && !HasDot("1") && !HasMark("1") && DecimalToInt32("1") == 1
  {
    assert IntText(1) == "1";
    IntTextIsToken(1);
    ScansNumber("1", []);
    DecimalInvertsIntText(1);
  }
}
