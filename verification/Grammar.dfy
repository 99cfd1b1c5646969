/** The language the parser accepts, as a function from the remaining input to a value and what is left.
    The round trip through the writer's tokens is proved here for every choice of whitespace. */
module Grammar {
  import opened Chars
  import opened Strings
  import opened Numbers
  import opened Json

  datatype Parsed = NoValue | Parsed(v: Json, rest: string)

  datatype Items = NoItems | Items(names: seq<string>, elems: seq<Json>, rest: string)
  {
    /** The items with `front` ones before them. */
    function Prepend(frontNames: seq<string>, front: seq<Json>): Items {
      match this
      case NoItems => NoItems
      case Items(names, elems, rest) => Items(frontNames + names, front + elems, rest)
    }

    function Container(obj: bool): Parsed {
      match this
      case NoItems => NoValue
      case Items(names, elems, rest) => Parsed(if obj then Obj(names, elems) else Arr(elems), rest)
    }
  }

  /** `Lexer::match` on the remaining input. */
  function Match(t: string, c: char): (r: Option<string>)
    ensures r.Some? ==> |r.value| < |t|
  {
    var u := SkipSpace(t);
    if u != [] && u[0] == c then Some(u[1..]) else None
  }

  function ParseLiteral(t: string, lit: string, v: Json): (r: Parsed)
    requires lit != []
    ensures r.Parsed? ==> |r.rest| < |t|
  {
    if lit <= t then Parsed(v, t[|lit|..]) else NoValue
  }

  function ParseNumber(t: string): (r: Parsed)
    ensures r.Parsed? ==> |r.rest| < |t|
  {
    var scan := ScanNumber(t);
    var tok := t[..scan.len];
    if !scan.digit then NoValue
    else
      DigitMeansLonger(t);
      Parsed(if scan.dot || scan.exp then Real(tok) else Int(DecimalToInt32(tok)), t[scan.len..])
  }

  lemma DigitMeansLonger(t: string)
    requires ScanNumber(t).digit
    ensures ScanNumber(t).len > 0
  {
  }

  /** The name and colon of an object member; nothing for an array element. */
  function ParseItemStart(obj: bool, t: string): (r: Scanned)
    ensures r.GotString? ==> |r.rest| <= |t|
  {
    if !obj then GotString([], t)
    else
      match ScanString(t)
      case NoString => NoString
      case GotString(name, rest) =>
        match Match(rest, ':')
        case None => NoString
        case Some(rest') => GotString(name, rest')
  }

  /** A value that is no container, from its first character on. */
  function ParseByChar(u: string): (r: Parsed)
    ensures r.Parsed? ==> |r.rest| < |u|
  {
    if u == [] then NoValue
    else if u[0] == '"' then
      match ScanString(u)
      case NoString => NoValue
      case GotString(s, rest) => Parsed(Str(s), rest)
    else if u[0] == 't' then ParseLiteral(u, "true", Bool(true))
    else if u[0] == 'f' then ParseLiteral(u, "false", Bool(false))
    else if u[0] == 'n' then ParseLiteral(u, "null", Null)
    else ParseNumber(u)
  }

  /** `parse_value`. */
  function ParseValue(t: string): (r: Parsed)
    ensures r.Parsed? ==> |r.rest| < |t|
    decreases |t|, 0
  {
    var u := SkipSpace(t);
    if u != [] && (u[0] == '{' || u[0] == '[') then ParseContainer(u[0] == '{', u[1..]) else ParseByChar(u)
  }

  /** The rest of a container, after its opening bracket. */
  function ParseContainer(obj: bool, t: string): (r: Parsed)
    ensures r.Parsed? ==> |r.rest| < |t|
    decreases |t|, 2
  {
    match Match(t, CloseChar(obj))
    case Some(rest) => Items([], [], rest).Container(obj)
    case None => ParseItems(obj, t).Container(obj)
  }

  /** One or more items and the closing bracket. */
  function ParseItems(obj: bool, t: string): (r: Items)
    ensures r.Items? ==> |r.rest| < |t| && r.elems != []
    ensures r.Items? ==> |r.names| == if obj then |r.elems| else 0
    decreases |t|, 1
  {
    match ParseItemStart(obj, t)
    case NoString => NoItems
    case GotString(name, afterName) =>
      match ParseValue(afterName)
      case NoValue => NoItems
      case Parsed(v, afterValue) =>
        var names := if obj then [name] else [];
        match Match(afterValue, ',')
        case Some(next) => ParseItems(obj, next).Prepend(names, [v])
        case None =>
          match Match(afterValue, CloseChar(obj))
          case Some(rest) => Items(names, [v], rest)
          case None => NoItems
  }

  /** What the item loop does behind an item. */
  function AfterItems(obj: bool, t: string): Items {
    match Match(t, ',')
    case Some(next) => ParseItems(obj, next)
    case None =>
      match Match(t, CloseChar(obj))
      case Some(rest) => Items([], [], rest)
      case None => NoItems
  }

  lemma PrependItemsTwice(r: Items, names: seq<string>, elems: seq<Json>, names': seq<string>, elems': seq<Json>)
    ensures r.Prepend(names', elems').Prepend(names, elems) == r.Prepend(names + names', elems + elems')
  {
    if r.Items? {
      assert names + (names' + r.names) == names + names' + r.names;
      assert elems + (elems' + r.elems) == elems + elems' + r.elems;
    }
  }

  // ---- The parser undoes the writer -------------------------------------------------------------

  lemma MatchSees(ws: string, c: char, d: char, x: string)
    requires AllSpace(ws) && !IsSpace(c)
    ensures Match(ws + [c] + x, d) == if c == d then Some(x) else None
  {
    assert ws + [c] + x == ws + ([c] + x);
    SkipSpaceDrops(ws, [c] + x);
    assert ([c] + x)[1..] == x;
  }

  lemma GapDelimits(ws: string, c: char, x: string)
    requires AllSpace(ws) && c in ",]}"
    ensures Delimited(ws + [c] + x)
  {
    if ws != [] {
      assert (ws + [c] + x)[0] == ws[0];
      assert IsSpace(ws[0]);
    }
  }

  /** No token text of a value begins with whitespace or a closing bracket. */
  lemma TokensStart(v: Json)
    requires Wf(v)
    ensures Tokens(v)[0] != [] && !IsSpace(Tokens(v)[0][0]) && Tokens(v)[0][0] !in "]}"
    ensures !v.IsContainer() ==> Tokens(v)[0][0] !in "[{"
  {
    match v
    case Int(n) => IntTextIsToken(n); NumberTokenStarts(IntText(n));
    case Real(tok) => NumberTokenStarts(tok);
    case _ =>
  }

  lemma ParseScalar(v: Json, t: string)
    requires !v.IsContainer() && Wf(v) && Delimited(t)
    ensures ParseByChar(ScalarToken(v) + t) == Parsed(AsRead(v), t)
  {
    hide ScanString, ParseNumber, IntText, Quote, IsNumberToken, DecimalToInt32;
    var tok := ScalarToken(v);
    match v
    case Int(n) =>
      hide ParseByChar;
      IntTextIsToken(n);
      ParseNumberToken(tok, t);
      IntIsReadBack(v);
    case Real(_) =>
      hide ParseByChar;
      ParseNumberToken(tok, t);
    case Str(s) =>
      ScanInvertsQuote([], s, t);
      assert [] + Quote(s) + t == tok + t;
    case Null => LiteralStops(tok, t);
    case Bool(_) => LiteralStops(tok, t);
  }

  lemma IntIsReadBack(v: Json)
    requires v.Int? && Wf(v)
    ensures DecimalToInt32(IntText(v.n)) == v.n
  {
    DecimalInvertsIntText(v.n);
  }

  lemma LiteralStops(lit: string, t: string)
    ensures (lit + t)[|lit|..] == t && lit <= lit + t
  {
  }

  lemma ParseNumberToken(tok: string, t: string)
    requires IsNumberToken(tok) && Delimited(t)
    ensures ParseByChar(tok + t) == Parsed(if IsRealToken(tok) then Real(tok) else Int(DecimalToInt32(tok)), t)
  {
    hide ScanNumber, DecimalToInt32;
    var u := tok + t;
    NumberTokenStarts(tok);
    NumberTokenStops(tok, t);
    assert u[0] == tok[0];
    assert u[|tok|..] == t;
  }

  /** Any whitespace before a token of a scalar is skipped. */
  lemma ParseSpacedScalar(ws: string, v: Json, t: string)
    requires AllSpace(ws) && !v.IsContainer() && Wf(v) && Delimited(t)
    ensures ParseValue(ws + ScalarToken(v) + t) == Parsed(AsRead(v), t)
  {
    hide ParseByChar, ParseContainer;
    var u := ScalarToken(v) + t;
    TokensStart(v);
    assert u[0] == ScalarToken(v)[0];
    assert ws + ScalarToken(v) + t == ws + u;
    SkipSpaceDrops(ws, u);
    ParseScalar(v, t);
  }

  lemma WeaveCons(tok: string, toks: seq<string>, gap: nat -> string, i: nat)
    ensures Weave([tok] + toks, gap, i) == gap(i) + tok + Weave(toks, gap, i + 1)
  {
    assert ([tok] + toks)[1..] == toks;
  }

  lemma WeaveOne(tok: string, gap: nat -> string, i: nat)
    ensures Weave([tok], gap, i) == gap(i) + tok
  {
    assert [tok][1..] == [];
  }

  /** Parsing skips leading whitespace. */
  lemma ParseValueSkips(ws: string, t: string)
    requires AllSpace(ws)
    ensures ParseValue(ws + t) == ParseValue(t)
  {
    SkipSpaceDrops(ws, t);
  }

  /** Tokens up to and including the closing bracket, from the given items on. */
  function ToClose(obj: bool, first: bool, items: seq<seq<string>>): (r: seq<string>)
    ensures r != []
  {
    Joined(first, items) + [[CloseChar(obj)]]
  }

  /** The tokens of a value, with any whitespace before each of them, parse to that value as read, and the parser
      stops right behind them. */
  lemma {:induction false} ParseWeave(v: Json, gap: nat -> string, i: nat, t: string)
    requires Wf(v) && AllGapsSpace(gap) && Delimited(t)
    ensures ParseValue(Weave(Tokens(v), gap, i) + t) == Parsed(AsRead(v), t)
    decreases v, 1
  {
    hide ParseValue, Weave, ParseContainer;
    assert AllSpace(gap(i));
    if v.IsContainer() {
      var obj := v.Obj?;
      var toks := ToClose(obj, true, ItemList(obj, v.Names(), v.elems));
      ContainerTextOpens(v, gap, i, t);
      ParseContainerWeave(v, gap, i + 1, t);
      ParseOpens(gap(i), obj, Weave(toks, gap, i + 1) + t);
    } else {
      WeaveOne(ScalarToken(v), gap, i);
      ParseSpacedScalar(gap(i), v, t);
    }
  }

  lemma ContainerTextOpens(v: Json, gap: nat -> string, i: nat, t: string)
    requires v.IsContainer()
    ensures var toks := ToClose(v.Obj?, true, ItemList(v.Obj?, v.Names(), v.elems));
      Weave(Tokens(v), gap, i) + t == gap(i) + [OpenChar(v.Obj?)] + (Weave(toks, gap, i + 1) + t)
  {
    hide Weave, Joined, ItemList;
    var toks := ToClose(v.Obj?, true, ItemList(v.Obj?, v.Names(), v.elems));
    assert Tokens(v) == [[OpenChar(v.Obj?)]] + toks;
    WeaveCons([OpenChar(v.Obj?)], toks, gap, i);
  }

  lemma ParseOpens(ws: string, obj: bool, body: string)
    requires AllSpace(ws)
    ensures ParseValue(ws + [OpenChar(obj)] + body) == ParseContainer(obj, body)
  {
    var u := [OpenChar(obj)] + body;
    assert ws + [OpenChar(obj)] + body == ws + u;
    ParseValueSkips(ws, u);
    assert SkipSpace(u) == u && u[1..] == body;
  }

  lemma {:induction false} ParseContainerWeave(v: Json, gap: nat -> string, i: nat, t: string)
    requires v.IsContainer() && Wf(v) && AllGapsSpace(gap)
    ensures ParseContainer(v.Obj?, Weave(ToClose(v.Obj?, true, ItemList(v.Obj?, v.Names(), v.elems)), gap, i) + t)
         == Parsed(AsRead(v), t)
    decreases v, 0
  {
    hide Weave, ItemList, ParseItems, Joined, AfterItems, AsRead, AllAsRead;
    var obj := v.Obj?;
    var items := ItemList(obj, v.Names(), v.elems);
    var j := i + |Joined(true, items)|;
    var tail := gap(j) + [CloseChar(obj)] + t;
    WeaveAppend(Joined(true, items), [[CloseChar(obj)]], gap, i);
    WeaveOne([CloseChar(obj)], gap, j);
    assert Weave(ToClose(obj, true, items), gap, i) + t == Weave(Joined(true, items), gap, i) + tail;
    BehindItems(obj, gap(j), t);
    AsReadUnfolds(v);
    if v.elems == [] {
      NoItemsWeave(obj, gap, i);
      assert [] + tail == tail && j == i;
    } else {
      ParseItemsWeave(obj, v.Names(), v.elems, gap, i, tail);
    }
  }

  lemma AsReadUnfolds(v: Json)
    requires v.IsContainer()
    ensures AsRead(v) == if v.Obj? then Obj(v.names, AllAsRead(v.elems)) else Arr(AllAsRead(v.elems))
    ensures v.elems == [] ==> AllAsRead(v.elems) == []
  {
  }

  lemma NoItemsWeave(obj: bool, gap: nat -> string, i: nat)
    ensures ItemList(obj, [], []) == [] && Joined(true, []) == [] && Weave([], gap, i) == []
  {
  }

  /** Behind the last item stands the closing bracket. */
  lemma BehindItems(obj: bool, ws: string, t: string)
    requires AllSpace(ws)
    ensures var tail := ws + [CloseChar(obj)] + t;
      Delimited(tail) && Match(tail, CloseChar(obj)) == Some(t) && AfterItems(obj, tail) == Items([], [], t)
  {
    MatchSees(ws, CloseChar(obj), ',', t);
    MatchSees(ws, CloseChar(obj), CloseChar(obj), t);
    GapDelimits(ws, CloseChar(obj), t);
  }

  /** Behind an item that is not the last stands a comma. */
  lemma BetweenItems(items: seq<seq<string>>, gap: nat -> string, i: nat, tail: string)
    requires AllGapsSpace(gap) && items != []
    ensures var r := Weave(Joined(false, items), gap, i) + tail;
      Delimited(r) && Match(r, ',') == Some(Weave(Joined(true, items), gap, i + 1) + tail)
  {
    var x := Weave(Joined(true, items), gap, i + 1) + tail;
    assert AllSpace(gap(i));
    CommaFirst(items);
    WeaveCons(",", Joined(true, items), gap, i);
    hide Weave, Joined;
    assert Weave(Joined(false, items), gap, i) + tail == gap(i) + [','] + x;
    MatchSees(gap(i), ',', ',', x);
    GapDelimits(gap(i), ',', x);
  }

  lemma CommaFirst(items: seq<seq<string>>)
    requires items != []
    ensures Joined(false, items) == [","] + Joined(true, items)
  {
    JoinedSplits(items);
    Regrouped([","], items[0], Joined(false, items[1..]));
  }

  lemma ParseItemStartWeave(obj: bool, name: string, gap: nat -> string, i: nat, t: string)
    requires AllGapsSpace(gap)
    ensures ParseItemStart(obj, Weave(NameTokens(obj, name), gap, i) + t) == GotString(if obj then name else [], t)
  {
    if obj {
      var ws, ws' := gap(i), gap(i + 1);
      assert AllSpace(ws) && AllSpace(ws');
      var x := ws' + [':'] + t;
      assert NameTokens(obj, name) == [Quote(name)] + ([":"] + []);
      WeaveCons(Quote(name), [":"] + [], gap, i);
      WeaveCons(":", [], gap, i + 1);
      assert Weave(NameTokens(obj, name), gap, i) + t == ws + Quote(name) + x;
      ScanInvertsQuote(ws, name, x);
      MatchSees(ws', ':', ':', t);
    } else {
      assert Weave([], gap, i) + t == t;
    }
  }

  lemma FirstTokenSeen(toks: seq<string>, d: char, gap: nat -> string, i: nat, x: string)
    requires toks != [] && toks[0] != [] && !IsSpace(toks[0][0]) && toks[0][0] != d
    requires AllGapsSpace(gap)
    ensures Match(Weave(toks, gap, i) + x, d) == None
  {
    hide Match, IsSpace;
    var c, after := toks[0][0], Weave(toks[1..], gap, i + 1) + x;
    var tail := toks[0][1..] + after;
    hide Weave;
    WeaveCons(toks[0], toks[1..], gap, i);
    assert [toks[0]] + toks[1..] == toks;
    FirstCharacter(gap(i), toks[0], after);
    assert Weave(toks, gap, i) + x == gap(i) + toks[0] + after;
    assert AllSpace(gap(i));
    MatchSees(gap(i), c, d, tail);
  }

  lemma FirstCharacter(lead: string, tok: string, after: string)
    requires tok != []
    ensures lead + tok + after == lead + [tok[0]] + (tok[1..] + after)
  {
    assert tok == [tok[0]] + tok[1..];
  }

  /** A text that starts an item does not start with a closing bracket. */
  lemma ItemIsNotClose(obj: bool, name: string, v: Json, gap: nat -> string, i: nat, x: string)
    requires Wf(v) && AllGapsSpace(gap)
    ensures Match(Weave(Item(obj, name, v), gap, i) + x, CloseChar(obj)) == None
  {
    hide Match, Weave;
    TokensStart(v);
    FirstTokenSeen(Item(obj, name, v), CloseChar(obj), gap, i, x);
  }

  /** One turn of the item loop. */
  lemma ParseItemsStep(obj: bool, t: string, name: string, v: Json, afterName: string, afterValue: string)
    requires ParseItemStart(obj, t) == GotString(name, afterName)
    requires ParseValue(afterName) == Parsed(v, afterValue)
    ensures ParseItems(obj, t) == AfterItems(obj, afterValue).Prepend(if obj then [name] else [], [v])
  {
    var names := if obj then [name] else [];
    assert names + [] == names && [v] + [] == [v];
  }

  lemma JoinedSplits(items: seq<seq<string>>)
    requires items != []
    ensures Joined(true, items) == items[0] + Joined(false, items[1..])
  {
    assert Comma(true) + items[0] == items[0];
  }

  /** The token text of items, cut behind the first. */
  lemma ItemsTextSplits(front: seq<string>, value: seq<string>, items: seq<seq<string>>, gap: nat -> string, i: nat, tail: string)
    requires items != [] && items[0] == front + value
    ensures var i1 := i + |front|;
      var afterText := Weave(Joined(false, items[1..]), gap, i1 + |value|) + tail;
      var text := Weave(Joined(true, items), gap, i) + tail;
      && text == Weave(items[0], gap, i) + afterText
      && text == Weave(front, gap, i) + (Weave(value, gap, i1) + afterText)
  {
    hide Weave, Joined;
    JoinedSplits(items);
    WeaveAppend(items[0], Joined(false, items[1..]), gap, i);
    WeaveAppend(front, value, gap, i);
  }

  /** The item loop takes the text of items one by one and goes on behind them. */
  lemma {:induction false} ParseItemsWeave(obj: bool, names: seq<string>, elems: seq<Json>, gap: nat -> string, i: nat, tail: string)
    requires elems != [] && (forall k :: 0 <= k < |elems| ==> Wf(elems[k])) && AllGapsSpace(gap) && Delimited(tail)
    requires |names| == if obj then |elems| else 0
    ensures var text := Weave(Joined(true, ItemList(obj, names, elems)), gap, i) + tail;
      && ParseItems(obj, text) == AfterItems(obj, tail).Prepend(names, AllAsRead(elems))
      && Match(text, CloseChar(obj)) == None
    decreases elems, 0
  {
    hide ParseValue, ParseItems, Weave, Tokens, Joined, Match, ItemList, AfterItems, AsRead, Delimited, AllGapsSpace;
    var v, items := elems[0], ItemList(obj, names, elems);
    var i1 := i + |NameTokens(obj, NameAt(names, 0))|;
    var i2 := i1 + |Tokens(v)|;
    var afterText := Weave(Joined(false, items[1..]), gap, i2) + tail;
    var name, names' := if obj then [names[0]] else [], if obj then names[1..] else [];
    assert [AsRead(v)] + AllAsRead(elems[1..]) == AllAsRead(elems) && name + names' == names;
    ItemListCons(obj, names, elems);
    if |elems| == 1 {
      NoItemsAfter(gap, i2);
      assert items[1..] == [] && [] + tail == tail;
    } else {
      BetweenItems(items[1..], gap, i2, tail);
      ParseItemsWeave(obj, names', elems[1..], gap, i2 + 1, tail);
      AfterComma(obj, afterText);
      PrependItemsTwice(AfterItems(obj, tail), name, [AsRead(v)], names', AllAsRead(elems[1..]));
    }
    ParseWeave(v, gap, i1, afterText);
    FirstItemWeave(obj, names, elems, gap, i, tail);
  }

  /** The item loop takes the first item, given that its value is parsed where it stands. */
  lemma FirstItemWeave(obj: bool, names: seq<string>, elems: seq<Json>, gap: nat -> string, i: nat, tail: string)
    requires elems != [] && Wf(elems[0]) && AllGapsSpace(gap) && |names| == if obj then |elems| else 0
    requires var i1 := i + |NameTokens(obj, NameAt(names, 0))|;
      var afterText := Weave(Joined(false, ItemList(obj, names, elems)[1..]), gap, i1 + |Tokens(elems[0])|) + tail;
      ParseValue(Weave(Tokens(elems[0]), gap, i1) + afterText) == Parsed(AsRead(elems[0]), afterText)
    ensures var i1 := i + |NameTokens(obj, NameAt(names, 0))|;
      var afterText := Weave(Joined(false, ItemList(obj, names, elems)[1..]), gap, i1 + |Tokens(elems[0])|) + tail;
      var text := Weave(Joined(true, ItemList(obj, names, elems)), gap, i) + tail;
      && ParseItems(obj, text) == AfterItems(obj, afterText).Prepend(if obj then [names[0]] else [], [AsRead(elems[0])])
      && Match(text, CloseChar(obj)) == None
  {
    hide ParseValue, ParseItems, Weave, Tokens, Joined, Match, ParseItemStart, ItemList, AfterItems, AsRead, AllGapsSpace, NameTokens;
    var name, v, items := NameAt(names, 0), elems[0], ItemList(obj, names, elems);
    var i1 := i + |NameTokens(obj, name)|;
    var afterText := Weave(Joined(false, items[1..]), gap, i1 + |Tokens(v)|) + tail;
    var valueText := Weave(Tokens(v), gap, i1) + afterText;
    ItemListCons(obj, names, elems);
    ItemsTextSplits(NameTokens(obj, name), Tokens(v), items, gap, i, tail);
    ItemIsNotClose(obj, name, v, gap, i, afterText);
    ParseItemStartWeave(obj, name, gap, i, valueText);
    ParseItemsStep(obj, Weave(Joined(true, items), gap, i) + tail, if obj then name else [], AsRead(v), valueText, afterText);
  }

  lemma NoItemsAfter(gap: nat -> string, i: nat)
    ensures Weave(Joined(false, []), gap, i) == []
  {
  }

  lemma AfterComma(obj: bool, t: string)
    requires Match(t, ',').Some?
    ensures AfterItems(obj, t) == ParseItems(obj, Match(t, ',').value)
  {
  }

  /** The parser undoes the writer's text. */
  lemma ParseInvertsText(v: Json, t: string)
    requires Wf(v) && Delimited(t)
    ensures ParseValue(Text(v) + t) == Parsed(AsRead(v), t)
  {
    var none: nat -> string := _ => [];
    ParseWeave(v, none, 0, t);
    WeaveWithoutGaps(Tokens(v), 0);
  }

  /** Values of the same text are read alike; without unmarked floats they are the same value. */
  lemma TextInjective(v: Json, w: Json)
    requires Wf(v) && Wf(w) && Text(v) == Text(w)
    ensures AsRead(v) == AsRead(w)
    ensures FloatsAreMarked(v) && FloatsAreMarked(w) ==> v == w
  {
    ParseInvertsText(v, []);
    ParseInvertsText(w, []);
    AsReadKeepsMarked(v);
    AsReadKeepsMarked(w);
  }

  // ---- What the parser returns ------------------------------------------------------------------

  /** A value that is read as itself. */
  predicate Canonical(v: Json) {
    Wf(v) && AsRead(v) == v
  }

  lemma ItemsAreCanonical(obj: bool, names: seq<string>, elems: seq<Json>)
    requires forall k :: 0 <= k < |elems| ==> Canonical(elems[k])
    ensures obj && |names| == |elems| ==> Canonical(Obj(names, elems))
    ensures Canonical(Arr(elems))
  {
    assert AllAsRead(elems) == elems;
  }

  lemma ParsedScalarIsCanonical(u: string)
    ensures ParseByChar(u).Parsed? ==> !ParseByChar(u).v.IsContainer() && Canonical(ParseByChar(u).v)
  {
    hide ScanString, ScanNumber, DecimalToInt32;
    ScannedIsToken(u);
  }

  /** Every value the parser returns can be written, and is read back as it is. */
  lemma {:induction false} ParsedIsCanonical(t: string)
    ensures ParseValue(t).Parsed? ==> Canonical(ParseValue(t).v)
    decreases |t|, 0
  {
    hide ParseItems, ParseByChar, Canonical;
    var u := SkipSpace(t);
    if u != [] && (u[0] == '{' || u[0] == '[') {
      var items := ParseItems(u[0] == '{', u[1..]);
      ItemsAreCanonical(u[0] == '{', [], []);
      if Match(u[1..], CloseChar(u[0] == '{')).None? && items.Items? {
        ParsedItemsAreCanonical(u[0] == '{', u[1..]);
        ParsedItemsAreNamed(u[0] == '{', u[1..]);
        ItemsAreCanonical(u[0] == '{', items.names, items.elems);
      }
    } else {
      ParsedScalarIsCanonical(u);
    }
  }

  lemma ParsedItemsAreNamed(obj: bool, t: string)
    ensures var r := ParseItems(obj, t);
      r.Items? ==> |r.names| == if obj then |r.elems| else 0
  {
  }

  lemma {:induction false} ParsedItemsAreCanonical(obj: bool, t: string)
    ensures ParseItems(obj, t).Items? ==> forall k :: 0 <= k < |ParseItems(obj, t).elems| ==> Canonical(ParseItems(obj, t).elems[k])
    decreases |t|, 1
  {
    if ParseItems(obj, t).Items? {
      var afterName := ParseItemStart(obj, t).rest;
      ParsedIsCanonical(afterName);
      var next := Match(ParseValue(afterName).rest, ',');
      if next.Some? {
        ParsedItemsAreCanonical(obj, next.value);
      }
    }
  }

  /** Printing what was read from any accepted text and reading that again gives the same value. */
  lemma ReprintIsStable(t: string)
    requires ParseValue(t).Parsed?
    ensures ParseValue(Text(ParseValue(t).v)) == Parsed(ParseValue(t).v, [])
  {
    var v := ParseValue(t).v;
    ParsedIsCanonical(t);
    ParseInvertsText(v, []);
    assert Text(v) + [] == Text(v);
  }
}
