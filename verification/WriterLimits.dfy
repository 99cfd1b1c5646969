/** Where the writer's output stops being the beginning of a JSON text: `buffer()` with an array open or a name
    waiting, and floats that are no numbers. */
module WriterLimits {
  import opened Chars
  import opened Strings
  import opened Numbers
  import opened Json
  import opened Grammar
  import opened Writer

  // ---- Text that cannot go on -------------------------------------------------------------------

  /** The compact text of items, and something behind them. */
  lemma ItemsText(obj: bool, names: seq<string>, elems: seq<Json>, tail: string)
    requires elems != [] && (forall k :: 0 <= k < |elems| ==> Wf(elems[k])) && Delimited(tail)
    requires |names| == if obj then |elems| else 0
    ensures var text := Concat(Joined(true, ItemList(obj, names, elems))) + tail;
      && ParseItems(obj, text) == AfterItems(obj, tail).Prepend(names, AllAsRead(elems))
      && Match(text, CloseChar(obj)) == None
  {
    hide ParseItems, AfterItems, Match, Weave, ItemList, Joined, Concat;
    ParseItemsWeave(obj, names, elems, _ => [], 0, tail);
    WeaveWithoutGaps(Joined(true, ItemList(obj, names, elems)), 0);
  }

  /** No item begins here, and the container does not end here either. */
  predicate NoItemAt(obj: bool, t: string) {
    ParseItems(obj, t) == NoItems && Match(t, CloseChar(obj)) == None
  }

  /** The text of an open container after its bracket. */
  function BehindBracket(o: Open, mid: string): string {
    Concat(Joined(true, ItemList(o.obj, o.names, o.done))) + mid
  }

  /** An open container behind which no item can follow is no value. */
  lemma BodyFails(o: Open, mid: string)
    requires OpenOk(o)
    requires if o.done == [] then NoItemAt(o.obj, mid) else Delimited(mid) && AfterItems(o.obj, mid) == NoItems
    ensures ParseValue([OpenChar(o.obj)] + BehindBracket(o, mid)) == NoValue
  {
    hide ParseItems, AfterItems, Match, ParseValue, ItemList;
    var text := [OpenChar(o.obj)] + BehindBracket(o, mid);
    assert [] + [OpenChar(o.obj)] + BehindBracket(o, mid) == text;
    ParseOpens([], o.obj, BehindBracket(o, mid));
    if o.done == [] {
      NoItemTokens(o);
      assert [] + mid == mid;
    } else {
      ItemsText(o.obj, o.names, o.done, mid);
    }
  }

  lemma NoItemTokens(o: Open)
    requires o.done == []
    ensures Concat(Joined(true, ItemList(o.obj, o.names, o.done))) == []
  {
  }

  lemma OpenText(o: Open, tail: string)
    ensures Concat(OpenTokens(o)) + tail == [OpenChar(o.obj)] + BehindBracket(o,
      (if o.obj && o.pending.Some? then (if o.done == [] then "" else ",") + (Quote(o.pending.value) + ":") else "") + tail)
  {
    hide Concat, Quote, ItemList, Joined;
    var items := Joined(true, ItemList(o.obj, o.names, o.done));
    var pending := if o.obj && o.pending.Some? then Comma(o.done == []) + NameTokens(true, o.pending.value) else [];
    ConcatAppend([[OpenChar(o.obj)]] + items, pending);
    ConcatAppend([[OpenChar(o.obj)]], items);
    ConcatOne([OpenChar(o.obj)]);
    if o.obj && o.pending.Some? {
      ConcatAppend(Comma(o.done == []), NameTokens(true, o.pending.value));
      ConcatComma(o.done == []);
      ConcatName(o.pending.value);
    } else {
      ConcatNothing();
    }
  }

  lemma ConcatOne(tok: string)
    ensures Concat([tok]) == tok
  {
    assert [tok][1..] == [];
    assert Concat([]) == [];
  }

  lemma ConcatNothing()
    ensures Concat([]) == []
  {
  }

  /** In an open container that has begun an item, nothing follows a text that begins no value. */
  lemma BegunFails(o: Open, u: string)
    requires OpenOk(o) && (o.obj ==> o.pending.Some?)
    requires ParseValue(u) == NoValue && Match(u, ']') == None
    ensures ParseValue(Concat(OpenTokens(o) + Separator(o)) + u) == NoValue
  {
    hide ParseItems, AfterItems, Match, ParseValue, Quote, Concat, BehindBracket;
    var comma := if o.done == [] then "" else ",";
    var next := (if o.obj then Quote(o.pending.value) + ":" else "") + u;
    ConcatAppend(OpenTokens(o), Separator(o));
    ConcatComma(o.obj || o.done == []);
    NextFails(o, u);
    var text := Concat(OpenTokens(o) + Separator(o)) + u;
    if o.obj {
      OpenText(o, u);
      assert Concat(OpenTokens(o)) + "" == Concat(OpenTokens(o));
      assert comma + (Quote(o.pending.value) + ":") + u == comma + next;
    } else {
      OpenText(o, comma + u);
      assert Concat(OpenTokens(o)) + comma + u == Concat(OpenTokens(o)) + (comma + u);
      assert "" + (comma + u) == comma + next;
    }
    assert text == [OpenChar(o.obj)] + BehindBracket(o, comma + next);
    if o.done == [] {
      assert comma + next == next;
    } else {
      CommaSeen(o.obj, next);
    }
    BodyFails(o, comma + next);
  }

  lemma CommaSeen(obj: bool, next: string)
    ensures Delimited("," + next) && AfterItems(obj, "," + next) == ParseItems(obj, next)
  {
    assert ("," + next)[1..] == next;
    SkipsNothing("," + next);
  }

  lemma NextFails(o: Open, u: string)
    requires o.obj ==> o.pending.Some?
    requires ParseValue(u) == NoValue && Match(u, ']') == None
    ensures var next := (if o.obj then Quote(o.pending.value) + ":" else "") + u;
      NoItemAt(o.obj, next)
  {
    hide ParseValue, Match;
    if o.obj {
      NamedFails(o.pending.value, u);
    } else {
      assert "" + u == u;
    }
  }

  lemma NamedFails(name: string, u: string)
    requires ParseValue(u) == NoValue
    ensures NoItemAt(true, Quote(name) + ":" + u)
  {
    hide ParseValue, Match, Quote, ScanString;
    var q := Quote(name);
    var next := q + ":" + u;
    assert [] + q + (":" + u) == next;
    ScanInvertsQuote([], name, ":" + u);
    assert [] + [':'] + u == ":" + u;
    MatchSees([], ':', ':', u);
    assert next == [] + ['"'] + next[1..];
    MatchSees([], '"', '}', next[1..]);
  }

  /** Text that begins no value begins none behind open containers either. */
  lemma {:induction false} FailsInside(open: seq<Open>, u: string)
    requires forall k :: 0 <= k < |open| ==> OpenOk(open[k]) && (open[k].obj ==> open[k].pending.Some?)
    requires ParseValue(u) == NoValue && Match(u, ']') == None
    ensures ParseValue(Concat(OpensTokens(open, true)) + u) == NoValue
    decreases |open|
  {
    hide ParseValue, Concat, OpensTokens, OpenTokens, Match;
    if open == [] {
      NoOpensTokens();
      ConcatNothing();
      assert [] + u == u;
    } else {
      var o, front := Last(open), Front(open);
      var inner := Concat(OpenTokens(o) + Separator(o)) + u;
      assert front + [o] == open;
      OpensTokensPush(front, o, true);
      assert OpensTokens(open, true) == OpensTokens(front, true) + (OpenTokens(o) + Separator(o));
      ConcatAppend(OpensTokens(front, true), OpenTokens(o) + Separator(o));
      BegunFails(o, u);
      OpensWithBracket(o, OpenTokens(o) + Separator(o), u);
      FailsInside(front, inner);
      assert Concat(OpensTokens(front, true)) + inner == Concat(OpensTokens(open, true)) + u;
    }
  }

  lemma OpensWithBracket(o: Open, toks: seq<string>, u: string)
    requires OpenTokens(o) <= toks
    ensures Match(Concat(toks) + u, ']') == None
  {
    assert toks[0] == [OpenChar(o.obj)];
    assert Concat(toks) + u == [] + [OpenChar(o.obj)] + (Concat(toks[1..]) + u);
    MatchSees([], OpenChar(o.obj), ']', Concat(toks[1..]) + u);
  }

  // ---- `buffer()` -------------------------------------------------------------------------------

  lemma BraceIsNoValue(x: string)
    ensures ParseValue("}" + x) == NoValue && Match("}" + x, ']') == None && Match("}" + x, ',') == None && Delimited("}" + x)
  {
    assert "}" + x == [] + ['}'] + x;
    MatchSees([], '}', ']', x);
    MatchSees([], '}', ',', x);
    SkipsNothing("}" + x);
  }

  /** A brace behind an open array. */
  lemma ArrayIsMisclosed(o: Open, x: string)
    requires OpenOk(o) && !o.obj
    ensures ParseValue(Concat(OpenTokens(o)) + ("}" + x)) == NoValue
  {
    hide ParseValue, Match, BehindBracket, Concat;
    var u := "}" + x;
    BraceIsNoValue(x);
    OpenText(o, u);
    assert "" + u == u;
    BodyFails(o, u);
  }

  predicate AllObjects(open: seq<Open>) {
    forall k :: 0 <= k < |open| ==> open[k].obj
  }

  /** Closing everything with braces behind a name that waits for its value, or with an array open, leaves no value. */
  lemma {:induction false} BracesFail(w: WState, d: Doc)
    requires Shows(w, d) && d.open != [] && (Awaiting(d) || !AllObjects(d.open))
    ensures ParseValue(w.out + Braces(|d.open|)) == NoValue
    decreases |d.open|
  {
    hide ParseValue, Shows, CloseLast, Braces, AllObjects, Awaiting;
    var x := Braces(|d.open| - 1);
    BracesUnfold(|d.open|);
    ShownStack(w, d);
    if Awaiting(d) {
      AwaitedFails(w, d, x);
    } else if !Last(d.open).obj {
      ArrayFails(w, d, x);
    } else {
      var w' := w.Add("}").Pop().(autoRoot := d.auto && |d.open| > 1);
      NothingAwaited(d);
      CloseShows(w, d);
      ClosedKeepsArrays(d);
      assert w.out + ("}" + x) == w'.out + x;
      BracesFail(w', CloseLast(d));
    }
  }

  lemma NothingAwaited(d: Doc)
    requires d.open != []
    ensures Awaiting(d) <==> Last(d.open).pending.Some?
  {
  }

  lemma AwaitedFails(w: WState, d: Doc, x: string)
    requires Shows(w, d) && Awaiting(d)
    ensures ParseValue(w.out + ("}" + x)) == NoValue
  {
    hide ParseValue, Match, Concat, OpensTokens, OpenTokens, Wf;
    var front := Front(d.open);
    assert front + [Last(d.open)] == d.open;
    BraceIsNoValue(x);
    OpensTokensChild(d.open);
    assert Separator(Last(d.open)) == [];
    assert OpensTokens(d.open, true) == OpensTokens(d.open, false);
    FailsInside(d.open, "}" + x);
  }

  lemma ArrayFails(w: WState, d: Doc, x: string)
    requires Shows(w, d) && d.open != [] && !Last(d.open).obj
    ensures ParseValue(w.out + ("}" + x)) == NoValue
  {
    hide ParseValue, Match, Concat, OpensTokens, OpenTokens, Wf;
    var o, front := Last(d.open), Front(d.open);
    var inner := Concat(OpenTokens(o)) + ("}" + x);
    assert front + [o] == d.open;
    OpensTokensPush(front, o, false);
    ArrayIsMisclosed(o, x);
    OpensWithBracket(o, OpenTokens(o), "}" + x);
    FailsInside(front, inner);
    ConcatAppend(OpensTokens(front, true), OpenTokens(o));
    assert OpensTokens(d.open, false) == OpensTokens(front, true) + OpenTokens(o);
    assert w.out + ("}" + x) == Concat(OpensTokens(front, true)) + inner;
  }

  lemma BracesUnfold(n: nat)
    requires n > 0
    ensures Braces(n) == "}" + Braces(n - 1)
  {
  }

  lemma ClosedKeepsArrays(d: Doc)
    requires d.open != [] && Last(d.open).obj && !AllObjects(d.open)
    ensures |CloseLast(d).open| == |d.open| - 1 > 0 && !AllObjects(CloseLast(d).open)
  {
    var k :| 0 <= k < |d.open| && !d.open[k].obj;
    assert CloseLast(d).open[k].obj == d.open[k].obj;
  }

  /** Where an automatic root is open, `buffer()` gives a JSON text exactly when every open container is an object and
      no member name waits for its value: it writes `}` for an open array too, and nothing for an awaited value. */
  lemma BufferFinishesObjects(w: WState, d: Doc)
    requires Shows(w, d) && d.auto
    ensures |w.stack| >= 2
    ensures ParseValue(BufferState(w).out).Parsed? <==> AllObjects(d.open) && !Awaiting(d)
    ensures AllObjects(d.open) && !Awaiting(d) ==>
      CloseAll(d).root.Some? && BufferState(w).out == Text(CloseAll(d).root.value)
  {
    hide Concat, OpensTokens, Tokens, Wf, Text, BufferState, ParseValue;
    BufferAddsBraces(w);
    if AllObjects(d.open) && !Awaiting(d) {
      CloseAllShows(w, d);
      ClosersAreBraces(d.open);
      var text := Text(CloseAll(d).root.value);
      ParseInvertsText(CloseAll(d).root.value, []);
      assert text + [] == text;
    } else {
      BracesFail(w, d);
    }
  }

  /** The run `addMemberName, openArray` leaves an array that `buffer()` closes with the wrong bracket. */
  lemma BufferMisclosesArray(name: string)
    ensures var w := WRun(INITIAL, [Name(name), OpenArray]);
      && w.Some? && w.value.autoRoot && |w.value.stack| == 3
      && BufferState(w.value).out == "{" + Quote(name) + ":[}}"
  {
    hide Quote;
    var w1 := WStep(INITIAL, Name(name));
    var w2 := WStep(w1, OpenArray);
    assert [Name(name), OpenArray][1..] == [OpenArray] && [OpenArray][1..] == [];
    assert WRun(INITIAL, [Name(name), OpenArray]) == WRun(w1, [OpenArray]) == WRun(w2, []) == Some(w2);
    assert w2.out == "{" + Quote(name) + ":[";
    BufferAddsBraces(w2);
    assert Braces(2) == "}" + Braces(1) == "}" + ("}" + Braces(0)) == "}}";
    assert "{" + Quote(name) + ":[" + "}}" == "{" + Quote(name) + ":[}}";
  }

  // ---- Floats -----------------------------------------------------------------------------------

  /** What `%g` prints: a number, or the name of something that is none. */
  predicate IsFloatText(s: string) {
    IsNumberToken(s) || s in {"nan", "-nan", "inf", "-inf"}
  }

  lemma NonFiniteIsNoValue(s: string, x: string)
    requires s in {"nan", "-nan", "inf", "-inf"}
    ensures ParseValue(s + x) == NoValue && Match(s + x, ']') == None && !IsNumberToken(s)
  {
    hide ScanNumber, ParseByChar, SkipSpace, Match;
    var t := s + x;
    assert t == [] + [s[0]] + t[1..];
    MatchSees([], s[0], ']', t[1..]);
    SkipsNothing(t);
    NoDigitTaken(s, x);
    NoDigitTaken(s, []);
    assert s + [] == s;
    assert t[1] == s[1];
    NoLetterValue(t);
  }

  lemma NoLetterValue(t: string)
    requires |t| >= 2 && t[0] in "n-i" && (t[0] == 'n' ==> t[1] == 'a') && !ScanNumber(t).digit
    ensures ParseByChar(t) == NoValue
  {
    hide ScanNumber;
    if t[0] == 'n' {
      assert !("null" <= t);
    }
  }

  lemma NoDigitTaken(s: string, x: string)
    requires s in {"nan", "-nan", "inf", "-inf"}
    ensures !ScanNumber(s + x).digit
  {
    var t := s + x;
    var k := SignLength(t);
    assert t[k..][0] == s[k];
    TakesNothing(t[k..], false, false, false);
  }

  /** The output can be continued to some JSON text. */
  ghost predicate Viable(out: string) {
    exists x :: ParseValue(out + x).Parsed?
  }

  /** `addNumber(float)` keeps the output viable exactly if `%g` prints a number. Behind `nan` or `inf` nothing that is
      written later makes a JSON text of it. */
  lemma FloatKeepsOutputViable(w: WState, d: Doc, shown: string)
    requires Shows(w, d) && Ready(d) && IsFloatText(shown)
    ensures Callable(w, Put(Real(shown)))
    ensures IsNumberToken(shown) ==> Shows(WStep(w, Put(Real(shown))), AddValue(d, Real(shown)))
    ensures Viable(WStep(w, Put(Real(shown))).out) <==> IsNumberToken(shown)
  {
    hide ParseValue, Concat, OpensTokens, Wf, IsNumberToken, Text, Tokens, Match;
    ShownStack(w, d);
    var w' := WStep(w, Put(Real(shown)));
    if IsNumberToken(shown) {
      FloatIsWf(shown);
      StepShows(w, d, Put(Real(shown)));
      var d' := AddValue(d, Real(shown));
      StateIsViable(w', d');
      var r := CloseAll(NullFilled(d')).root.value;
      ParseInvertsText(r, []);
      assert w'.out + Completion(d') == Text(r) == Text(r) + [];
    } else {
      BeginShows(w, d);
      forall x ensures ParseValue(w'.out + x) == NoValue {
        NonFiniteIsNoValue(shown, x);
        FailsInside(d.open, shown + x);
        assert w'.out + x == Concat(OpensTokens(d.open, true)) + (shown + x);
      }
    }
  }

  lemma FloatIsWf(shown: string)
    requires IsNumberToken(shown)
    ensures Wf(Real(shown))
  {
  }
}
