/** The lexer and the recursive-descent parser, with the position and the arena they change in place,
    proved against `Grammar.ParseValue` and `Arena.Flatten`. */
module Parser {
  import opened Chars
  import opened Strings
  import opened Numbers
  import opened Json
  import opened Arena
  import opened Grammar

  class Lexer {
    const s: string
    var pos: nat

    ghost predicate Valid()
      reads this
    {
      pos <= |s|
    }

    /** The input that is not consumed yet. */
    ghost function Rest(): string
      requires Valid()
      reads this
    {
      s[pos..]
    }

    constructor (src: string)
      ensures Valid() && s == src && pos == 0
    {
      s := src;
      pos := 0;
    }

    method SkipWs()
      requires Valid()
      modifies this
      ensures Valid() && pos >= old(pos)
      ensures Rest() == SkipSpace(old(Rest()))
    {
      while pos < |s| && IsSpace(s[pos])
        invariant Valid() && pos >= old(pos)
        invariant SkipSpace(Rest()) == SkipSpace(old(Rest()))
      {
        assert Rest()[1..] == s[pos + 1..];
        pos := pos + 1;
      }
    }

    method Peek() returns (c: char)
      requires Valid()
      modifies this
      ensures Valid() && pos >= old(pos)
      ensures Rest() == SkipSpace(old(Rest()))
      ensures c == if Rest() == [] then '\0' else Rest()[0]
    {
      SkipWs();
      c := if pos < |s| then s[pos] else '\0';
    }

    method MatchChar(c: char) returns (ok: bool)
      requires Valid()
      modifies this
      ensures Valid() && pos >= old(pos)
      ensures ok == Match(old(Rest()), c).Some?
      ensures Rest() == if ok then Match(old(Rest()), c).value else SkipSpace(old(Rest()))
    {
      SkipWs();
      ok := pos < |s| && s[pos] == c;
      if ok {
        assert Rest()[1..] == s[pos + 1..];
        pos := pos + 1;
      }
    }

    /** `s[pos++]` */
    method Next() returns (c: char)
      requires Valid() && pos < |s|
      modifies this
      ensures Valid() && pos == old(pos) + 1
      ensures c == old(Rest())[0] && Rest() == old(Rest())[1..]
    {
      c := s[pos];
      pos := pos + 1;
    }

    /** The `switch` over the character behind a backslash, that character included. */
    method ParseEscape() returns (ok: bool, piece: string)
      requires Valid() && pos < |s|
      modifies this
      ensures Valid() && pos > old(pos)
      ensures ok == ScanEscape(old(Rest())).GotString?
      ensures ok ==> ScanEscape(old(Rest())) == GotString(piece, Rest())
    {
      ghost var t := Rest();
      var e := Next();
      if e == 'u' {
        if pos + 4 > |s| {
          return false, [];
        }
        var cp := HexToUnsigned(s[pos..pos + 4]);
        DropTake(s, pos - 1, 1, 5);
        pos := pos + 4;
        DropDrop(s, pos - 5, 5);
        return true, Utf8Bytes(cp);
      }
      match SimpleEscape(e)
      case None => return false, [];
      case Some(c) => return true, [c];
    }

    /** The loop of `parse_string`, from behind the opening quote to behind the closing one. */
    method ParseStringBody() returns (ok: bool, out: string)
      requires Valid()
      modifies this
      ensures Valid() && pos >= old(pos)
      ensures ok == StringBody(old(Rest())).GotString?
      ensures ok ==> StringBody(old(Rest())) == GotString(out, Rest())
    {
      hide StringBody, ScanEscape;
      out := [];
      ghost var full := StringBody(Rest());
      PrependNothing(full);
      while pos < |s| && s[pos] != '"'
        invariant Valid() && pos >= old(pos)
        invariant full == StringBody(Rest()).Prepend(out)
        decreases |s| - pos
      {
        StringBodyUnfolds(Rest());
        var c := Next();
        var piece := [c];
        if c == '\\' && pos < |s| {
          ok, piece := ParseEscape();
          if !ok {
            return false, out;
          }
        }
        PrependPieces(StringBody(Rest()), out, piece);
        out := out + piece;
      }
      StringBodyUnfolds(Rest());
      if pos >= |s| {
        return false, out;
      }
      var _ := Next();
      PrependNothingTo(out);
      return true, out;
    }

    method ParseString() returns (ok: bool, out: string)
      requires Valid()
      modifies this
      ensures Valid() && pos >= old(pos)
      ensures ok == ScanString(old(Rest())).GotString?
      ensures ok ==> ScanString(old(Rest())) == GotString(out, Rest())
    {
      SkipWs();
      if pos >= |s| || s[pos] != '"' {
        return false, [];
      }
      var _ := Next();
      ok, out := ParseStringBody();
    }

    /** `L.s.compare(L.pos, n, lit) == 0`, and the step over the literal. */
    method Literal(lit: string) returns (ok: bool)
      requires Valid()
      modifies this
      ensures Valid() && pos >= old(pos)
      ensures ok == (lit <= old(Rest()))
      ensures Rest() == if ok then old(Rest())[|lit|..] else old(Rest())
    {
      var end := if pos + |lit| <= |s| then pos + |lit| else |s|;
      ok := s[pos..end] == lit;
      DropTake(s, pos, 0, end - pos);
      if ok {
        DropDrop(s, pos, |lit|);
        pos := pos + |lit|;
      }
    }

    /** One turn of the loop over digits, dot and exponent. */
    method NumberTurn(digit: bool, dot: bool, exp: bool) returns (more: bool, digit': bool, dot': bool, exp': bool)
      requires Valid() && pos < |s|
      modifies this
      ensures Valid() && more == Takes(s[old(pos)], dot, exp)
      ensures pos == if more then old(pos) + TurnLength(old(Rest())) else old(pos)
      ensures var ch := s[old(pos)];
        more ==> digit' == (digit || IsDigit(ch)) && dot' == (dot || ch == '.') && exp' == (exp || IsExpMark(ch))
      ensures !more ==> digit' == digit && dot' == dot && exp' == exp
    {
      more, digit', dot', exp' := true, digit, dot, exp;
      var ch := s[pos];
      if IsDigit(ch) {
        digit' := true;
        var _ := Next();
      } else if ch == '.' && !dot {
        dot' := true;
        var _ := Next();
      } else if (ch == 'e' || ch == 'E') && !exp {
        exp' := true;
        var _ := Next();
        if pos < |s| && (s[pos] == '+' || s[pos] == '-') {
          var _ := Next();
        }
      } else {
        more := false;
      }
    }

    /** The loop over digits, dot and exponent. */
    method NumberLoop() returns (scan: NumScan)
      requires Valid()
      modifies this
      ensures Valid() && pos == old(pos) + scan.len
      ensures scan == ScanDigits(old(Rest()), false, false, false)
    {
      hide ScanDigits, TurnLength, Takes, IsDigit, IsExpMark;
      var start := pos;
      var digit, dot, exp := false, false, false;
      var more := true;
      while more && pos < |s|
        invariant Valid() && pos >= start
        invariant ScanDigits(old(Rest()), false, false, false)
               == ScanDigits(Rest(), digit, dot, exp).Longer(pos - start)
        invariant !more ==> pos < |s| && !Takes(s[pos], dot, exp)
        decreases |s| - pos, more
      {
        if Takes(s[pos], dot, exp) {
          TakesOne(Rest(), digit, dot, exp);
          DropDrop(s, pos, TurnLength(Rest()));
        }
        more, digit, dot, exp := NumberTurn(digit, dot, exp);
      }
      TakesNothing(Rest(), digit, dot, exp);
      scan := NumScan(pos - start, digit, dot, exp);
    }

    /** The number token: its text and what its scan has seen. */
    method NumberToken() returns (tok: string, scan: NumScan)
      requires Valid()
      modifies this
      ensures Valid() && pos >= old(pos)
      ensures scan == ScanNumber(old(Rest()))
      ensures tok == old(Rest())[..scan.len] && Rest() == old(Rest())[scan.len..]
    {
      hide ScanDigits;
      var start := pos;
      if pos < |s| && (s[pos] == '-' || s[pos] == '+') {
        pos := pos + 1;
        DropDrop(s, start, 1);
      }
      var sign := pos - start;
      scan := NumberLoop();
      scan := scan.Longer(sign);
      tok := s[start..pos];
      DropTake(s, start, 0, scan.len);
      DropDrop(s, start, scan.len);
    }
  }

  lemma DropDrop<T>(s: seq<T>, a: nat, b: nat)
    requires a + b <= |s|
    ensures s[a..][b..] == s[a + b..]
  {
  }

  lemma DropTake<T>(s: seq<T>, a: nat, b: nat, c: nat)
    requires b <= c && a + c <= |s|
    ensures s[a..][b..c] == s[a + b..a + c]
  {
  }

  lemma StringBodyUnfolds(t: string)
    ensures StringBody(t) ==
      if t == [] then NoString
      else if t[0] == '"' then GotString([], t[1..])
      else if t[0] == '\\' && |t| > 1 then
        match ScanEscape(t[1..])
        case NoString => NoString
        case GotString(piece, rest) => StringBody(rest).Prepend(piece)
      else StringBody(t[1..]).Prepend([t[0]])
  {
  }

  lemma PrependNothing(r: Scanned)
    ensures r.Prepend([]) == r
  {
    if r.GotString? {
      assert [] + r.text == r.text;
    }
  }

  lemma PrependNothingTo(out: string)
    ensures out + [] == out
  {
  }

  lemma PrependPieces(r: Scanned, a: string, b: string)
    ensures r.Prepend(b).Prepend(a) == r.Prepend(a + b)
  {
    if r.GotString? {
      assert a + (b + r.text) == a + b + r.text;
    }
  }

  /** The arena of `ParserState`. */
  class NodeArena {
    var nodes: seq<Node>

    constructor ()
      ensures nodes == []
    {
      nodes := [];
    }

    method Push(kind: NodeKind) returns (idx: nat)
      modifies this
      ensures idx == old(|nodes|) && nodes == old(nodes) + [BLANK.(kind := kind)]
    {
      idx := |nodes|;
      nodes := nodes + [BLANK];
      nodes := nodes[idx := nodes[idx].(kind := kind)];
    }
  }

  /** `P.nodes.push_back(Node{})` and the assignments that fill the new node. */
  method PushNode(P: NodeArena, node: Node) returns (idx: nat)
    modifies P
    ensures idx == old(|P.nodes|) && P.nodes == old(P.nodes) + [node]
  {
    idx := P.Push(node.kind);
    P.nodes := P.nodes[idx := node];
  }

  /** `P.nodes[idx].children.push_back(child)`, and `names.push_back(name)` for an object. */
  method AddItem(P: NodeArena, idx: nat, obj: bool, name: string, child: nat)
    requires idx < |P.nodes|
    modifies P
    ensures P.nodes == old(P.nodes)[idx := WithItem(old(P.nodes)[idx], obj, name, child)]
  {
    if obj {
      P.nodes := P.nodes[idx := P.nodes[idx].(names := P.nodes[idx].names + [name])];
    }
    P.nodes := P.nodes[idx := P.nodes[idx].(children := P.nodes[idx].children + [child])];
  }

  function WithItem(node: Node, obj: bool, name: string, child: nat): Node {
    var node' := node.(children := node.children + [child]);
    if obj then node'.(names := node.names + [name]) else node'
  }

  /** What a parse call leaves behind: on success the index of the value's node, the input behind the value, and
      an arena that has grown by exactly the value's layout; on failure -1 and an arena that has only grown. */
  ghost predicate Outcome(expected: Parsed, base: seq<Node>, r: int, rest: string, nodes: seq<Node>) {
    && base <= nodes
    && match expected
       case NoValue => r == -1
       case Parsed(v, rest') => r == |base| && rest == rest' && nodes == base + Flatten(v, |base|)
  }

  /** The arena while the items of a container are read: its node with the children so far, then their layouts. */
  ghost function Partial(base: seq<Node>, obj: bool, names: seq<string>, elems: seq<Json>): seq<Node> {
    var at := |base| + 1;
    base + [NodeOf(if obj then Obj(names, elems) else Arr(elems), ChildIndices(elems, at))] + FlattenAll(elems, at)
  }

  lemma PartialGrows(base: seq<Node>, obj: bool, names: seq<string>, elems: seq<Json>, name: string, v: Json, nodes: seq<Node>)
    requires nodes == Partial(base, obj, names, elems) + Flatten(v, |Partial(base, obj, names, elems)|)
    ensures |base| < |nodes|
    ensures nodes[|base| := WithItem(nodes[|base|], obj, name, |Partial(base, obj, names, elems)|)]
         == Partial(base, obj, names + (if obj then [name] else []), elems + [v])
  {
    hide Flatten, FlattenAll, ChildIndices;
    FlattenAllSnoc(elems, v, |base| + 1);
    assert |Partial(base, obj, names, elems)| == |base| + 1 + SizeAll(elems);
    assert nodes[|base|] == Partial(base, obj, names, elems)[|base|];
  }

  lemma PartialIsFlatten(base: seq<Node>, obj: bool, names: seq<string>, elems: seq<Json>)
    ensures Partial(base, obj, names, elems) == base + Flatten(if obj then Obj(names, elems) else Arr(elems), |base|)
  {
    hide FlattenAll, ChildIndices;
  }

  lemma FlattenScalar(v: Json, at: nat)
    requires !v.IsContainer()
    ensures Flatten(v, at) == [NodeOf(v, [])]
  {
  }

  /** The branches of `parse_value` that read no container. */
  method ParseScalarValue(L: Lexer, P: NodeArena, c: char) returns (r: int)
    requires L.Valid()
    requires c == if L.Rest() == [] then '\0' else L.Rest()[0]
    requires L.Rest() == SkipSpace(L.Rest())
    modifies L, P
    ensures L.Valid() && L.pos >= old(L.pos)
    ensures Outcome(ParseByChar(old(L.Rest())), old(P.nodes), r, L.Rest(), P.nodes)
  {
    hide ScanString, ScanNumber, ParseNumber, Tree, ParseValue, DecimalToInt32, Flatten, SkipSpace;
    ghost var t, base := L.Rest(), P.nodes;
    if c == '"' {
      var idx := P.Push(StringNode);
      var ok, text := L.ParseString();
      P.nodes := P.nodes[idx := P.nodes[idx].(strVal := text)];
      FlattenScalar(Str(text), idx);
      assert ok ==> P.nodes == base + [NodeOf(Str(text), [])];
      return if ok then idx else -1;
    }
    if c == 't' || c == 'f' {
      var ok := L.Literal(if c == 't' then "true" else "false");
      if !ok {
        return -1;
      }
      var idx := P.Push(BooleanNode);
      P.nodes := P.nodes[idx := P.nodes[idx].(boolVal := c == 't')];
      FlattenScalar(Bool(c == 't'), idx);
      assert P.nodes == base + [NodeOf(Bool(c == 't'), [])];
      return idx;
    }
    if c == 'n' {
      var ok := L.Literal("null");
      if !ok {
        return -1;
      }
      var idx := P.Push(NullNode);
      FlattenScalar(Null, idx);
      return idx;
    }
    r := ParseNumberValue(L, P);
  }

  method ParseNumberValue(L: Lexer, P: NodeArena) returns (r: int)
    requires L.Valid() && L.Rest() == SkipSpace(L.Rest())
    modifies L, P
    ensures L.Valid() && L.pos >= old(L.pos)
    ensures Outcome(ParseNumber(old(L.Rest())), old(P.nodes), r, L.Rest(), P.nodes)
  {
    hide ScanNumber, DecimalToInt32, Flatten, SkipSpace;
    ghost var base := P.nodes;
    L.SkipWs();
    var tok, scan := L.NumberToken();
    if !scan.digit {
      return -1;
    }
    ghost var v := if scan.dot || scan.exp then Real(tok) else Int(DecimalToInt32(tok));
    assert ParseNumber(old(L.Rest())) == Parsed(v, L.Rest());
    hide ParseNumber, Tree, ParseByChar, ParseValue;
    var blank := BLANK.(kind := NumberNode);
    var node := if scan.dot || scan.exp then blank.(isInt := false, text := tok)
                else blank.(isInt := true, intVal := DecimalToInt32(tok));
    var idx := PushNode(P, node);
    FlattenScalar(v, idx);
    return idx;
  }

  /** The name and colon of a member, for an object, and the value behind it. */
  method ParseItem(L: Lexer, P: NodeArena, obj: bool) returns (name: string, r: int)
    requires L.Valid()
    modifies L, P
    ensures L.Valid() && L.pos >= old(L.pos) && (r >= 0 ==> L.pos > old(L.pos))
    ensures old(P.nodes) <= P.nodes
    ensures match ParseItemStart(obj, old(L.Rest()))
            case NoString => r == -1
            case GotString(text, rest) => name == text && Outcome(ParseValue(rest), old(P.nodes), r, L.Rest(), P.nodes)
    decreases |L.s| - L.pos, 2
  {
    hide ParseValue, ScanString, Flatten, SkipSpace;
    name := [];
    if obj {
      var ok, text := L.ParseString();
      if !ok {
        return name, -1;
      }
      name := text;
      ok := L.MatchChar(':');
      if !ok {
        return name, -1;
      }
    }
    r := ParseAnyValue(L, P);
  }

  /** `parse_object` (`obj`) and `parse_array` (`!obj`). */
  method ParseContainerValue(L: Lexer, P: NodeArena, obj: bool) returns (r: int)
    requires L.Valid() && L.pos < |L.s| && L.s[L.pos] == OpenChar(obj)
    modifies L, P
    ensures L.Valid() && L.pos > old(L.pos)
    ensures Outcome(ParseContainer(obj, old(L.Rest())[1..]), old(P.nodes), r, L.Rest(), P.nodes)
    decreases |L.s| - L.pos, 0
  {
    hide ParseItems, Flatten, FlattenAll, ChildIndices, SkipSpace, ParseValue, ScanString;
    ghost var base := P.nodes;
    var idx := P.Push(ContainerKind(obj));
    var ok := L.MatchChar(OpenChar(obj));
    MatchOpens(OpenChar(obj), old(L.Rest()));
    ghost var inside := L.Rest();
    ok := L.MatchChar(CloseChar(obj));
    EmptyPartial(base, obj);
    if ok {
      PartialIsFlatten(base, obj, [], []);
      return idx;
    }
    SkipBeforeItems(obj, inside);
    r := ParseItemLoop(L, P, obj, idx);
  }

  lemma MatchOpens(c: char, t: string)
    requires t != [] && t[0] == c && !IsSpace(c)
    ensures Match(t, c) == Some(t[1..])
  {
  }

  lemma EmptyPartial(base: seq<Node>, obj: bool)
    ensures Partial(base, obj, [], []) == base + [BLANK.(kind := ContainerKind(obj))]
  {
  }

  /** The item loop does not see whether the whitespace before the first item is still there. */
  lemma SkipBeforeItems(obj: bool, t: string)
    ensures ParseItems(obj, SkipSpace(t)) == ParseItems(obj, t)
  {
    hide ParseItems;
    SkipTwice(t);
    ParseItemsUnfolds(obj, t);
    ParseItemsUnfolds(obj, SkipSpace(t));
  }

  /** The `for (;;)` loop of both, with the container's node already in the arena. */
  method ParseItemLoop(L: Lexer, P: NodeArena, obj: bool, idx: nat) returns (r: int)
    requires L.Valid()
    requires |P.nodes| == idx + 1 && P.nodes == Partial(P.nodes[..idx], obj, [], [])
    modifies L, P
    ensures L.Valid() && L.pos >= old(L.pos)
    ensures Outcome(ParseItems(obj, old(L.Rest())).Container(obj), old(P.nodes)[..idx], r, L.Rest(), P.nodes)
    decreases |L.s| - L.pos, 3
  {
    hide ParseItems, Flatten, Partial, SkipSpace, ParseValue, ParseItemStart, Match;
    ghost var base, full := P.nodes[..idx], ParseItems(obj, L.Rest());
    ghost var names: seq<string>, elems: seq<Json> := [], [];
    PrependNoItems(full);
    while true
      invariant L.Valid() && L.pos >= old(L.pos)
      invariant |base| == idx && P.nodes == Partial(base, obj, names, elems)
      invariant full == ParseItems(obj, L.Rest()).Prepend(names, elems)
      decreases |L.s| - L.pos
    {
      ghost var t := L.Rest();
      ParseItemsUnfolds(obj, t);
      PartialExtends(base, obj, names, elems);
      var name, child := ParseItem(L, P, obj);
      if child < 0 {
        return -1;
      }
      ghost var v := ParseValue(ParseItemStart(obj, t).rest).v;
      ghost var newNames := if obj then [name] else [];
      PartialGrows(base, obj, names, elems, name, v, P.nodes);
      AddItem(P, idx, obj, name, child);
      ghost var afterValue := L.Rest();
      PartialExtends(base, obj, names + newNames, elems + [v]);
      var ok := L.MatchChar(',');
      if ok {
        PrependItemsTwice(ParseItems(obj, L.Rest()), names, elems, newNames, [v]);
        names, elems := names + newNames, elems + [v];
        continue;
      }
      MatchSkips(afterValue, CloseChar(obj));
      ok := L.MatchChar(CloseChar(obj));
      if ok {
        PartialIsFlatten(base, obj, names + newNames, elems + [v]);
        return idx;
      }
      return -1;
    }
  }

  lemma MatchSkips(t: string, c: char)
    ensures Match(SkipSpace(t), c) == Match(t, c)
  {
  }

  lemma ParseItemsUnfolds(obj: bool, t: string)
    ensures ParseItems(obj, t) ==
      match ParseItemStart(obj, t)
      case NoString => NoItems
      case GotString(name, afterName) =>
        match ParseValue(afterName)
        case NoValue => NoItems
        case Parsed(v, afterValue) =>
          var names := if obj then [name] else [];
          match Match(afterValue, ',')
          case Some(next) => ParseItems(obj, next).Prepend(names, [v])
          case None =>
            match Match(afterValue, CloseChar(obj))
            case Some(rest) => Items(names, [v], rest)
            case None => NoItems
  {
  }

  lemma PrependNoItems(r: Items)
    ensures r.Prepend([], []) == r
  {
    if r.Items? {
      assert [] + r.names == r.names && [] + r.elems == r.elems;
    }
  }

  lemma PartialExtends(base: seq<Node>, obj: bool, names: seq<string>, elems: seq<Json>)
    ensures base <= Partial(base, obj, names, elems) && |Partial(base, obj, names, elems)| > |base|
  {
    hide FlattenAll, ChildIndices;
  }

  /** `parse_value`. */
  method ParseAnyValue(L: Lexer, P: NodeArena) returns (r: int)
    requires L.Valid()
    modifies L, P
    ensures L.Valid() && L.pos >= old(L.pos) && (r >= 0 ==> L.pos > old(L.pos))
    ensures Outcome(ParseValue(old(L.Rest())), old(P.nodes), r, L.Rest(), P.nodes)
    decreases |L.s| - L.pos, 1
  {
    hide ParseByChar, ParseContainer, Flatten;
    ghost var t := L.Rest();
    var c := L.Peek();
    if c == '{' || c == '[' {
      r := ParseContainerValue(L, P, c == '{');
    } else {
      SkipTwice(t);
      r := ParseScalarValue(L, P, c);
    }
    assert r >= 0 ==> |L.Rest()| < |t|;
  }

  lemma SkipTwice(t: string)
    ensures SkipSpace(SkipSpace(t)) == SkipSpace(t)
  {
  }
}
