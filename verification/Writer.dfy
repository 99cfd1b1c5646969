/** The stream writer: its state machine, the class that runs it in place, and the invariant that ties every
    reachable output to the document written so far. */
module Writer {
  import opened Chars
  import opened Strings
  import opened Json
  import opened Grammar

  // ---- The writer's state machine ---------------------------------------------------------------

  datatype CtxKind = TopLevel | InObject | InArray

  datatype Ctx = Ctx(kind: CtxKind, first: bool, namePending: bool)

  datatype WState = WState(out: string, stack: seq<Ctx>, autoRoot: bool)
  {
    function Add(text: string): WState {
      this.(out := out + text)
    }

    function SetTop(ctx: Ctx): WState
      requires stack != []
    {
      this.(stack := stack[|stack| - 1 := ctx])
    }

    function Push(kind: CtxKind): WState {
      this.(stack := stack + [Ctx(kind, true, false)])
    }

    function Pop(): WState
      requires stack != []
    {
      this.(stack := stack[..|stack| - 1])
    }
  }

  const INITIAL := WState([], [Ctx(TopLevel, true, false)], false)

  /** The calls of the stream interface; `Put` stands for every call that writes a value that is no container. */
  datatype Event = OpenArray | CloseArray | OpenObject | CloseObject | Name(name: string) | Put(v: Json)

  function TopCtx(w: WState): Ctx
    requires w.stack != []
  {
    w.stack[|w.stack| - 1]
  }

  /** Calls that do not touch an empty context stack. */
  predicate Callable(w: WState, e: Event) {
    && (e.OpenArray? || e.OpenObject? || w.stack != [])
    && (e.Put? ==> !e.v.IsContainer())
  }

  /** The comma an array element is written behind. */
  function BeforeElement(w: WState): (r: WState)
    ensures r.autoRoot == w.autoRoot && |r.stack| == |w.stack|
  {
    if w.stack == [] || TopCtx(w).kind != InArray then w
    else w.Add(if TopCtx(w).first then "" else ",").SetTop(TopCtx(w).(first := false))
  }

  /** `before_value` */
  function BeforeValue(w: WState): WState
    requires w.stack != []
  {
    if TopCtx(w).kind == InObject then w.SetTop(TopCtx(w).(namePending := false)) else BeforeElement(w)
  }

  function OpenStep(w: WState, obj: bool): WState {
    BeforeElement(w).Add([OpenChar(obj)]).Push(if obj then InObject else InArray)
  }

  function CloseObjectStep(w: WState): WState
    requires w.stack != []
  {
    var p := w.Add("}").Pop();
    if p.autoRoot && |p.stack| == 1 then p.(autoRoot := false) else p
  }

  /** `addMemberName` behind the automatic root. */
  function NameStep(w: WState, name: string): WState
    requires w.stack != []
  {
    w.Add(if TopCtx(w).first then "" else ",").SetTop(TopCtx(w).(first := false, namePending := true)).Add(Quote(name) + ":")
  }

  function WStep(w: WState, e: Event): WState
    requires Callable(w, e)
  {
    match e
    case OpenArray => OpenStep(w, false)
    case OpenObject => OpenStep(w, true)
    case CloseArray => w.Add("]").Pop()
    case CloseObject => CloseObjectStep(w)
    case Name(name) =>
      if TopCtx(w).kind == TopLevel then NameStep(OpenStep(w, true).(autoRoot := true), name) else NameStep(w, name)
    case Put(v) => BeforeValue(w).Add(ScalarToken(v))
  }

  /** The pending-name flag: set by a name, cleared by a value in an object, left as it is by everything else, so that a
      container opened behind a name leaves it set. */
  lemma FlagFollowsNames(w: WState, e: Event)
    requires Callable(w, e) && w.stack != []
    ensures e.Name? ==> TopCtx(WStep(w, e)).namePending
    ensures e.Put? && TopCtx(w).kind == InObject ==> !TopCtx(WStep(w, e)).namePending
    ensures e.OpenArray? || e.OpenObject? ==>
      |WStep(w, e).stack| == |w.stack| + 1 && !TopCtx(WStep(w, e)).namePending
      && WStep(w, e).stack[|w.stack| - 1].namePending == TopCtx(w).namePending
  {
    hide Quote, ScalarToken, OpenChar;
  }

  /** A run of calls, none if one of them would touch an empty stack. */
  function WRun(w: WState, events: seq<Event>): Option<WState>
    decreases events
  {
    if events == [] then Some(w)
    else if !Callable(w, events[0]) then None
    else WRun(WStep(w, events[0]), events[1..])
  }

  /** `buffer()`: closes objects as long as the automatic root counts as open. */
  function BufferState(w: WState): WState
    requires w.autoRoot ==> |w.stack| >= 2
    decreases |w.stack|
  {
    if w.autoRoot then BufferState(CloseObjectStep(w)) else w
  }

  // ---- The stream object ------------------------------------------------------------------------

  /** The `switch` of `writer_quote`. */
  method EscapeChar(c: char) returns (e: string)
    ensures e == Escape(c)
  {
    if c == '"' {
      return "\\\"";
    } else if c == '\\' {
      return "\\\\";
    } else if c == '\n' {
      return "\\n";
    } else if c == '\r' {
      return "\\r";
    } else if c == '\t' {
      return "\\t";
    } else if c as int < 0x20 {
      return "\\u" + Hex4(c as int);
    } else {
      return [c];
    }
  }

  /** `writer_quote` */
  method WriterQuote(out: string, s: CString) returns (r: string)
    ensures r == out + Quote(s)
  {
    hide EscapeAll, Escape;
    EscapeNothing();
    r := out + "\"";
    for k := 0 to |s|
      invariant r == out + "\"" + EscapeAll(s[..k])
    {
      var e := EscapeChar(s[k]);
      assert s[..k + 1] == s[..k] + [s[k]];
      EscapeAllSnoc(s[..k], s[k]);
      r := r + e;
    }
    assert s[..|s|] == s;
    r := r + "\"";
  }

  lemma EscapeNothing()
    ensures EscapeAll([]) == []
  {
  }

  class JsonStream {
    var out: string
    var stack: seq<Ctx>
    var autoRootOpened: bool

    ghost function State(): WState
      reads this
    {
      WState(out, stack, autoRootOpened)
    }

    constructor ()
      ensures State() == INITIAL
    {
      out := [];
      stack := [Ctx(TopLevel, true, false)];
      autoRootOpened := false;
    }

    method BeforeAnyElement()
      modifies this
      ensures State() == BeforeElement(old(State()))
    {
      if stack != [] && stack[|stack| - 1].kind == InArray {
        if !stack[|stack| - 1].first {
          out := out + ",";
        }
        stack := stack[|stack| - 1 := stack[|stack| - 1].(first := false)];
      }
    }

    method BeforeAnyValue()
      requires stack != []
      modifies this
      ensures State() == BeforeValue(old(State()))
    {
      var top := stack[|stack| - 1];
      if top.kind == InArray {
        if !top.first {
          out := out + ",";
        }
        stack := stack[|stack| - 1 := top.(first := false)];
      } else if top.kind == InObject {
        stack := stack[|stack| - 1 := top.(namePending := false)];
      }
    }

    method DoOpenArray()
      modifies this
      ensures State() == WStep(old(State()), OpenArray)
    {
      BeforeAnyElement();
      out := out + "[";
      stack := stack + [Ctx(InArray, true, false)];
    }

    method DoOpenObject()
      modifies this
      ensures State() == WStep(old(State()), OpenObject)
    {
      BeforeAnyElement();
      out := out + "{";
      stack := stack + [Ctx(InObject, true, false)];
    }

    method DoCloseArray()
      requires stack != []
      modifies this
      ensures State() == WStep(old(State()), CloseArray)
    {
      out := out + "]";
      stack := stack[..|stack| - 1];
    }

    method DoCloseObject()
      requires stack != []
      modifies this
      ensures State() == WStep(old(State()), CloseObject)
    {
      out := out + "}";
      stack := stack[..|stack| - 1];
      if autoRootOpened && |stack| == 1 {
        autoRootOpened := false;
      }
    }

    method AddMemberName(name: CString)
      requires stack != []
      modifies this
      ensures State() == WStep(old(State()), Name(name))
    {
      if stack[|stack| - 1].kind == TopLevel {
        DoOpenObject();
        autoRootOpened := true;
      }
      WriteName(name);
    }

    /** The rest of `addMemberName`. */
    method WriteName(name: CString)
      requires stack != []
      modifies this
      ensures State() == NameStep(old(State()), name)
    {
      hide Quote;
      var last := |stack| - 1;
      if !stack[last].first {
        out := out + ",";
      }
      stack := stack[last := stack[last].(first := false)];
      out := WriterQuote(out, name);
      out := out + ":";
      stack := stack[last := stack[last].(namePending := true)];
    }

    method AddNumber(v: int)
      requires stack != [] && IsInt32(v)
      modifies this
      ensures State() == WStep(old(State()), Put(Int(v)))
    {
      BeforeAnyValue();
      out := out + IntText(v);
    }

    /** `addNumber(float)`; `shown` is what `%g` prints. */
    method AddFloat(shown: string)
      requires stack != []
      modifies this
      ensures State() == WStep(old(State()), Put(Real(shown)))
    {
      BeforeAnyValue();
      out := out + shown;
    }

    method AddString(s: CString)
      requires stack != []
      modifies this
      ensures State() == WStep(old(State()), Put(Str(s)))
    {
      BeforeAnyValue();
      out := WriterQuote(out, s);
    }

    method AddBoolean(v: bool)
      requires stack != []
      modifies this
      ensures State() == WStep(old(State()), Put(Bool(v)))
    {
      BeforeAnyValue();
      out := out + if v then "true" else "false";
    }

    method AddNull()
      requires stack != []
      modifies this
      ensures State() == WStep(old(State()), Put(Null))
    {
      BeforeAnyValue();
      out := out + "null";
    }

    method Buffer() returns (text: string)
      requires autoRootOpened ==> |stack| >= 2
      modifies this
      ensures State() == BufferState(old(State())) && text == out
    {
      while autoRootOpened
        invariant autoRootOpened ==> |stack| >= 2
        invariant BufferState(State()) == BufferState(old(State()))
        decreases |stack|
      {
        DoCloseObject();
      }
      text := out;
    }
  }

  // ---- The document written so far --------------------------------------------------------------

  /** A container that is open: what it holds, and the name that waits for its value. */
  datatype Open = Open(obj: bool, names: seq<string>, done: seq<Json>, pending: Option<string>)
  {
    function Closed(): Json {
      if obj then Obj(names, done) else Arr(done)
    }

    function With(v: Json): Open {
      Open(obj, if obj && pending.Some? then names + [pending.value] else names, done + [v], None)
    }
  }

  /** A document in progress: its root once that is complete, the open containers, innermost last, and whether
      the root object was opened by a member name. */
  datatype Doc = Doc(root: Option<Json>, open: seq<Open>, auto: bool)

  const EMPTY := Doc(None, [], false)

  function Last(open: seq<Open>): Open
    requires open != []
  {
    open[|open| - 1]
  }

  function Front(open: seq<Open>): seq<Open>
    requires open != []
  {
    open[..|open| - 1]
  }

  predicate Awaiting(d: Doc) {
    d.open != [] && Last(d.open).pending.Some?
  }

  /** A value may come next. */
  predicate Ready(d: Doc) {
    if d.open == [] then d.root.None? else Last(d.open).obj ==> Last(d.open).pending.Some?
  }

  /** The calls a well-nested use of the stream may make next. */
  predicate Allowed(d: Doc, e: Event) {
    match e
    case OpenArray => Ready(d)
    case OpenObject => Ready(d)
    case CloseArray => d.open != [] && !Last(d.open).obj
    case CloseObject => d.open != [] && Last(d.open).obj && Last(d.open).pending.None?
    case Name(_) => if d.open == [] then d.root.None? else Last(d.open).obj && Last(d.open).pending.None?
    case Put(v) => Ready(d) && !v.IsContainer() && Wf(v)
  }

  function AddValue(d: Doc, v: Json): Doc {
    if d.open == [] then d.(root := Some(v)) else d.(open := Front(d.open) + [Last(d.open).With(v)])
  }

  function CloseLast(d: Doc): Doc
    requires d.open != []
  {
    AddValue(Doc(d.root, Front(d.open), d.auto && |d.open| > 1), Last(d.open).Closed())
  }

  function OpenNew(d: Doc, obj: bool): Doc {
    d.(open := d.open + [Open(obj, [], [], None)])
  }

  function AwaitName(d: Doc, name: string): Doc
    requires d.open != []
  {
    d.(open := Front(d.open) + [Last(d.open).(pending := Some(name))])
  }

  /** What a call does to the document. */
  function DStep(d: Doc, e: Event): Doc
    requires Allowed(d, e)
  {
    match e
    case OpenArray => OpenNew(d, false)
    case OpenObject => OpenNew(d, true)
    case CloseArray => CloseLast(d)
    case CloseObject => CloseLast(d)
    case Name(name) => AwaitName(if d.open == [] then OpenNew(d, true).(auto := true) else d, name)
    case Put(v) => AddValue(d, v)
  }

  /** The document a well-nested call sequence describes; none if the sequence is not well-nested. */
  function DRun(d: Doc, events: seq<Event>): Option<Doc>
    decreases events
  {
    if events == [] then Some(d)
    else if !Allowed(d, events[0]) then None
    else DRun(DStep(d, events[0]), events[1..])
  }

  // ---- Its tokens -------------------------------------------------------------------------------

  /** The comma behind the items of a container when the next one begins; a member name brings its own. */
  function Separator(o: Open): seq<string> {
    Comma(o.obj || o.done == [])
  }

  /** The tokens of an open container so far. */
  function OpenTokens(o: Open): seq<string> {
    [[OpenChar(o.obj)]] + Joined(true, ItemList(o.obj, o.names, o.done)) +
    if o.obj && o.pending.Some? then Comma(o.done == []) + NameTokens(true, o.pending.value) else []
  }

  /** The tokens of nested open containers; `child` tells whether something has been begun in the innermost. */
  function OpensTokens(open: seq<Open>, child: bool): seq<string> {
    if open == [] then []
    else OpensTokens(Front(open), true) + OpenTokens(Last(open)) + if child then Separator(Last(open)) else []
  }

  function DocTokens(d: Doc): seq<string> {
    if d.root.Some? then Tokens(d.root.value) else OpensTokens(d.open, false)
  }

  predicate OpenOk(o: Open) {
    && |o.names| == (if o.obj then |o.done| else 0)
    && (o.pending.Some? ==> o.obj)
    && forall k :: 0 <= k < |o.done| ==> Wf(o.done[k])
  }

  /** What every well-nested run keeps true of the document. */
  predicate DocOk(d: Doc) {
    && (forall k :: 0 <= k < |d.open| ==> OpenOk(d.open[k]))
    && (forall k :: 0 <= k < |d.open| - 1 ==> d.open[k].obj ==> d.open[k].pending.Some?)
    && (d.open != [] ==> d.root.None?)
    && (d.root.Some? ==> Wf(d.root.value))
    && (d.auto ==> d.open != [] && d.open[0].obj)
  }

  /** The context the writer keeps for an open container. */
  predicate CtxFits(o: Open, child: bool, ctx: Ctx) {
    && ctx.kind == (if o.obj then InObject else InArray)
    && ctx.first == (o.done == [] && (if o.obj then o.pending.None? else !child))
  }

  /** The writer's state shows the document: its output is the tokens of the document so far,
      its context stack mirrors the open containers. */
  predicate Shows(w: WState, d: Doc) {
    && DocOk(d)
    && w.out == Concat(DocTokens(d))
    && |w.stack| == |d.open| + 1 && w.stack[0].kind == TopLevel
    && (forall k :: 0 <= k < |d.open| ==> CtxFits(d.open[k], k < |d.open| - 1, w.stack[k + 1]))
    && w.autoRoot == d.auto
  }

  lemma OpensTokensPush(open: seq<Open>, o: Open, child: bool)
    ensures OpensTokens(open + [o], child) == OpensTokens(open, true) + OpenTokens(o) + if child then Separator(o) else []
  {
    assert Front(open + [o]) == open;
  }

  lemma OpensTokensChild(open: seq<Open>)
    requires open != []
    ensures OpensTokens(open, true) == OpensTokens(open, false) + Separator(Last(open))
  {
  }

  /** Writing a value into an open container. */
  lemma OpenTokensWith(o: Open, v: Json)
    requires OpenOk(o) && (o.obj ==> o.pending.Some?)
    ensures OpenTokens(o.With(v)) == OpenTokens(o) + Separator(o) + Tokens(v)
  {
    hide Joined, ItemList, Tokens;
    var name := if o.obj then o.pending.value else [];
    var items := ItemList(o.obj, o.names, o.done);
    ItemListSnoc(o.obj, o.names, o.done, name, v);
    ItemListLength(o.obj, o.names, o.done);
    JoinedSnoc(true, items, Item(o.obj, name, v));
    ItemUnfolds(o.obj, name, v);
    assert o.names == [] || o.obj;
  }

  lemma ItemListLength(obj: bool, names: seq<string>, elems: seq<Json>)
    ensures ItemList(obj, names, elems) == [] <==> elems == []
  {
  }

  lemma ItemUnfolds(obj: bool, name: string, v: Json)
    ensures Item(obj, name, v) == NameTokens(obj, name) + Tokens(v)
  {
  }

  /** Closing a container completes the tokens of its value. */
  lemma OpenTokensClose(o: Open)
    requires OpenOk(o) && o.pending.None?
    ensures OpenTokens(o) + [[CloseChar(o.obj)]] == Tokens(o.Closed())
  {
    hide Joined, ItemList;
  }

  // ---- Every call keeps the output and the document together --------------------------------------

  /** As `Shows`, with the next item begun: its separator is written. */
  predicate ShowsBegun(w: WState, d: Doc) {
    && DocOk(d) && Ready(d) && d.root.None?
    && w.out == Concat(OpensTokens(d.open, true))
    && |w.stack| == |d.open| + 1 && w.stack[0].kind == TopLevel
    && (forall k :: 0 <= k < |d.open| ==> CtxFits(d.open[k], true, w.stack[k + 1]))
    && w.autoRoot == d.auto
  }

  lemma ConcatComma(first: bool)
    ensures Concat(Comma(first)) == if first then "" else ","
  {
    if !first {
      assert [","][1..] == [];
    }
  }

  lemma BeginShows(w: WState, d: Doc)
    requires Shows(w, d) && Ready(d)
    ensures ShowsBegun(BeforeElement(w), d) && ShowsBegun(BeforeValue(w), d)
  {
    hide OpensTokens, Concat;
    if d.open == [] {
      NoOpensTokens();
    } else {
      OpensTokensChild(d.open);
      ConcatAppend(OpensTokens(d.open, false), Separator(Last(d.open)));
      ConcatComma(Last(d.open).obj || Last(d.open).done == []);
      assert w.out + "" == w.out;
    }
  }

  lemma NoOpensTokens()
    ensures OpensTokens([], true) == [] == OpensTokens([], false)
  {
  }

  lemma OpenNewShows(w: WState, d: Doc, obj: bool)
    requires ShowsBegun(w, d)
    ensures Shows(w.Add([OpenChar(obj)]).Push(if obj then InObject else InArray), OpenNew(d, obj))
  {
    hide OpensTokens, Concat, Wf;
    OpenNewTokens(d.open, obj);
    ConcatSnoc(OpensTokens(d.open, true), [OpenChar(obj)]);
  }

  lemma OpenNewTokens(open: seq<Open>, obj: bool)
    ensures OpensTokens(open + [Open(obj, [], [], None)], false) == OpensTokens(open, true) + [[OpenChar(obj)]]
  {
    hide OpensTokens, OpenTokens;
    OpensTokensPush(open, Open(obj, [], [], None), false);
    EmptyOpenTokens(obj);
  }

  lemma EmptyOpenTokens(obj: bool)
    ensures OpenTokens(Open(obj, [], [], None)) == [[OpenChar(obj)]]
  {
  }

  lemma AddValueShows(w: WState, d: Doc, v: Json)
    requires ShowsBegun(w, d) && Wf(v)
    ensures Shows(w.Add(Text(v)), AddValue(d, v))
  {
    hide OpensTokens, OpenTokens, Concat, Tokens, Wf;
    ConcatAppend(OpensTokens(d.open, true), Tokens(v));
    if d.open == [] {
      NoOpensTokens();
      assert [] + Tokens(v) == Tokens(v);
    } else {
      AddedTokens(d.open, v);
      WithKeepsOk(Last(d.open), v);
    }
  }

  lemma AddedTokens(open: seq<Open>, v: Json)
    requires open != [] && OpenOk(Last(open)) && (Last(open).obj ==> Last(open).pending.Some?)
    ensures OpensTokens(Front(open) + [Last(open).With(v)], false) == OpensTokens(open, true) + Tokens(v)
  {
    hide OpensTokens, OpenTokens, Tokens, Wf;
    var front, o := Front(open), Last(open);
    OpensTokensPush(front, o.With(v), false);
    OpensTokensPush(front, o, true);
    assert front + [o] == open;
    OpenTokensWith(o, v);
    hide Separator, OpenOk;
    Regrouped(OpensTokens(front, true), OpenTokens(o) + Separator(o), Tokens(v));
    Regrouped(OpensTokens(front, true), OpenTokens(o), Separator(o));
    assert OpensTokens(front + [o.With(v)], false) == OpensTokens(front, true) + OpenTokens(o.With(v)) + [];
  }

  lemma WithKeepsOk(o: Open, v: Json)
    requires OpenOk(o) && Wf(v) && (o.obj ==> o.pending.Some?)
    ensures OpenOk(o.With(v))
  {
    hide Wf;
  }

  lemma CloseShows(w: WState, d: Doc)
    requires Shows(w, d) && d.open != [] && Last(d.open).pending.None?
    ensures var p := w.Add([CloseChar(Last(d.open).obj)]).Pop();
      Shows(p.(autoRoot := d.auto && |d.open| > 1), CloseLast(d))
  {
    hide OpensTokens, OpenTokens, Concat, Tokens, Wf;
    var o, front := Last(d.open), Front(d.open);
    var d' := Doc(d.root, front, d.auto && |d.open| > 1);
    var w' := WState(Concat(OpensTokens(front, true)), w.stack[..|w.stack| - 1], d'.auto);
    ClosedIsWf(o);
    AddValueShows(w', d', o.Closed());
    CloseText(d.open);
  }

  /** The text of an open container and its closer, behind what encloses it, is the text of the closed value there. */
  lemma CloseText(open: seq<Open>)
    requires open != [] && OpenOk(Last(open)) && Last(open).pending.None?
    ensures Concat(OpensTokens(open, false)) + [CloseChar(Last(open).obj)]
         == Concat(OpensTokens(Front(open), true)) + Text(Last(open).Closed())
  {
    hide OpensTokens, OpenTokens, Concat, Tokens, Wf;
    var o, front := Last(open), Front(open);
    OpensTokensPush(front, o, false);
    assert front + [o] == open;
    OpenTokensClose(o);
    ConcatSnoc(OpensTokens(open, false), [CloseChar(o.obj)]);
    ConcatAppend(OpensTokens(front, true), Tokens(o.Closed()));
    assert OpensTokens(open, false) + [[CloseChar(o.obj)]] == OpensTokens(front, true) + Tokens(o.Closed());
  }

  lemma ClosedIsWf(o: Open)
    requires OpenOk(o)
    ensures Wf(o.Closed())
  {
  }

  lemma NameShows(w: WState, d: Doc, name: string)
    requires Shows(w, d) && d.open != [] && Last(d.open).obj && Last(d.open).pending.None?
    ensures Shows(NameStep(w, name), AwaitName(d, name))
  {
    hide OpensTokens, OpenTokens, Concat, Wf, Quote, DocOk;
    NameIsWritten(d, name);
    AwaitNameIsOk(d, name);
    assert w.out + ((if Last(d.open).done == [] then "" else ",") + (Quote(name) + ":"))
        == w.out + (if Last(d.open).done == [] then "" else ",") + (Quote(name) + ":");
  }

  lemma AwaitNameIsOk(d: Doc, name: string)
    requires DocOk(d) && d.open != [] && Last(d.open).obj
    ensures DocOk(AwaitName(d, name)) && d.root.None?
  {
    hide Wf;
  }

  lemma NameIsWritten(d: Doc, name: string)
    requires d.open != [] && Last(d.open).obj && Last(d.open).pending.None?
    ensures Concat(OpensTokens(AwaitName(d, name).open, false))
         == Concat(OpensTokens(d.open, false)) + ((if Last(d.open).done == [] then "" else ",") + (Quote(name) + ":"))
  {
    hide OpensTokens, OpenTokens, Concat, Wf, Quote;
    var o, front := Last(d.open), Front(d.open);
    var o' := o.(pending := Some(name));
    OpensTokensPush(front, o, false);
    OpensTokensPush(front, o', false);
    assert front + [o] == d.open;
    NamedTokens(o, name);
    var more := Comma(o.done == []) + NameTokens(true, name);
    assert OpensTokens(front + [o'], false) == OpensTokens(d.open, false) + more;
    ConcatAppend(OpensTokens(d.open, false), more);
    ConcatAppend(Comma(o.done == []), NameTokens(true, name));
    ConcatComma(o.done == []);
    ConcatName(name);
  }

  lemma ConcatName(name: string)
    ensures Concat(NameTokens(true, name)) == Quote(name) + ":"
  {
    hide Quote;
    assert NameTokens(true, name)[1..] == [":"] && [":"][1..] == [];
  }

  lemma NamedTokens(o: Open, name: string)
    requires o.obj && o.pending.None?
    ensures OpenTokens(o.(pending := Some(name))) == OpenTokens(o) + (Comma(o.done == []) + NameTokens(true, name))
  {
    hide Joined, ItemList;
  }

  /** Every call a well-nested use may make keeps the writer's state and the document together. */
  lemma StepShows(w: WState, d: Doc, e: Event)
    requires Shows(w, d) && Allowed(d, e)
    ensures Callable(w, e) && Shows(WStep(w, e), DStep(d, e))
  {
    hide OpensTokens, OpenTokens, Concat, Wf, Quote, Tokens, DocOk;
    match e
    case OpenArray => BeginShows(w, d); OpenNewShows(BeforeElement(w), d, false);
    case OpenObject => BeginShows(w, d); OpenNewShows(BeforeElement(w), d, true);
    case CloseArray => ArrayFacts(d); CloseShows(w, d);
    case CloseObject => CloseShows(w, d);
    case Name(name) =>
      if d.open == [] {
        BeginShows(w, d);
        OpenNewShows(BeforeElement(w), d, true);
        AutoShows(OpenStep(w, true), OpenNew(d, true));
        NameShows(OpenStep(w, true).(autoRoot := true), OpenNew(d, true).(auto := true), name);
      } else {
        LastCtx(w, d);
        NameShows(w, d, name);
      }
    case Put(v) =>
      BeginShows(w, d);
      ScalarText(v);
      AddValueShows(BeforeValue(w), d, v);
  }

  /** An open array waits for no name and is not an automatic root. */
  lemma ArrayFacts(d: Doc)
    requires DocOk(d) && d.open != [] && !Last(d.open).obj
    ensures Last(d.open).pending.None? && (d.auto ==> |d.open| > 1)
  {
    assert OpenOk(Last(d.open));
  }

  lemma AutoShows(w: WState, d: Doc)
    requires Shows(w, d) && d.open != [] && d.open[0].obj
    ensures Shows(w.(autoRoot := true), d.(auto := true))
  {
  }

  lemma LastCtx(w: WState, d: Doc)
    requires Shows(w, d) && d.open != []
    ensures CtxFits(Last(d.open), false, TopCtx(w))
  {
  }

  lemma ScalarText(v: Json)
    requires !v.IsContainer()
    ensures Text(v) == ScalarToken(v)
  {
    var tok := ScalarToken(v);
    assert Tokens(v) == [] + [tok];
    ConcatSnoc([], tok);
  }

  lemma InitialShows()
    ensures Shows(INITIAL, EMPTY)
  {
  }

  /** The writer invariant over every well-nested run. */
  lemma {:induction false} RunShows(w: WState, d: Doc, events: seq<Event>)
    requires Shows(w, d) && DRun(d, events).Some?
    ensures WRun(w, events).Some? && Shows(WRun(w, events).value, DRun(d, events).value)
    decreases events
  {
    hide Shows, WStep, DStep, Allowed, Callable;
    if events != [] {
      StepShows(w, d, events[0]);
      RunShows(WStep(w, events[0]), DStep(d, events[0]), events[1..]);
    }
  }

  // ---- Every output is viable -------------------------------------------------------------------

  /** The brackets that close the open containers, innermost first. */
  function Closers(open: seq<Open>): string {
    if open == [] then [] else [CloseChar(Last(open).obj)] + Closers(Front(open))
  }

  /** The document after all open containers are closed where they stand. */
  function CloseAll(d: Doc): Doc
    decreases |d.open|
  {
    if d.open == [] then d else CloseAll(CloseLast(d))
  }

  /** A document that waits for a member value gets `null` for it. */
  function NullFilled(d: Doc): Doc {
    if Awaiting(d) then AddValue(d, Null) else d
  }

  function Completion(d: Doc): string {
    (if Awaiting(d) then "null" else "") + Closers(d.open)
  }

  lemma {:induction false} CloseAllShows(w: WState, d: Doc)
    requires Shows(w, d) && !Awaiting(d) && (d.open != [] || d.root.Some?)
    ensures var r := CloseAll(d).root;
      r.Some? && Wf(r.value) && w.out + Closers(d.open) == Text(r.value)
    decreases |d.open|
  {
    hide Text, Wf, Shows, CloseAll, Closers, CloseLast;
    if d.open == [] {
      CompleteShows(w, d);
    } else {
      ShownStack(w, d);
      var c := [CloseChar(Last(d.open).obj)];
      var w' := w.Add(c).Pop().(autoRoot := d.auto && |d.open| > 1);
      CloseShows(w, d);
      CloseLastIsReady(d);
      CloseAllShows(w', CloseLast(d));
      ClosersOfCloseLast(d);
      assert w.out + (c + Closers(CloseLast(d).open)) == w'.out + Closers(CloseLast(d).open);
    }
  }

  lemma ShownStack(w: WState, d: Doc)
    requires Shows(w, d)
    ensures |w.stack| == |d.open| + 1
  {
  }

  lemma CompleteShows(w: WState, d: Doc)
    requires Shows(w, d) && d.open == [] && d.root.Some?
    ensures CloseAll(d) == d && Wf(d.root.value) && w.out + Closers(d.open) == Text(d.root.value)
  {
    hide Wf, Tokens;
    assert w.out + [] == w.out;
  }

  lemma CloseLastIsReady(d: Doc)
    requires d.open != []
    ensures !Awaiting(CloseLast(d)) && (CloseLast(d).open != [] || CloseLast(d).root.Some?)
    ensures |CloseLast(d).open| == |d.open| - 1
  {
  }

  lemma {:induction false} ClosersFollowKinds(a: seq<Open>, b: seq<Open>)
    requires |a| == |b| && forall k :: 0 <= k < |a| ==> a[k].obj == b[k].obj
    ensures Closers(a) == Closers(b)
  {
    if a != [] {
      ClosersFollowKinds(Front(a), Front(b));
    }
  }

  lemma ClosersOfCloseLast(d: Doc)
    requires d.open != []
    ensures CloseAll(d) == CloseAll(CloseLast(d))
    ensures Closers(d.open) == [CloseChar(Last(d.open).obj)] + Closers(CloseLast(d).open)
  {
    hide CloseAll, Closers;
    ClosersFollowKinds(CloseLast(d).open, Front(d.open));
    CloseAllUnfolds(d);
    ClosersUnfold(d.open);
  }

  lemma CloseAllUnfolds(d: Doc)
    requires d.open != []
    ensures CloseAll(d) == CloseAll(CloseLast(d))
  {
  }

  lemma ClosersUnfold(open: seq<Open>)
    requires open != []
    ensures Closers(open) == [CloseChar(Last(open).obj)] + Closers(Front(open))
  {
  }

  /** A state that shows a begun document can be completed to the text of that document. */
  lemma StateIsViable(w: WState, d: Doc)
    requires Shows(w, d) && (d.open != [] || d.root.Some?)
    ensures var r := CloseAll(NullFilled(d)).root;
      r.Some? && Wf(r.value) && w.out + Completion(d) == Text(r.value)
  {
    hide Shows, Text, Wf, CloseAll, Closers, NullFilled, WStep, DStep, Awaiting;
    if Awaiting(d) {
      AwaitingIsReady(w, d);
      StepShows(w, d, Put(Null));
      AwaitedNull(w, d);
      CloseAllShows(WStep(w, Put(Null)), NullFilled(d));
      ClosersFollowKinds(NullFilled(d).open, d.open);
      assert w.out + ("null" + Closers(d.open)) == w.out + "null" + Closers(d.open);
    } else {
      CloseAllShows(w, d);
      NothingFilled(d);
      assert w.out + ([] + Closers(d.open)) == w.out + Closers(d.open);
    }
  }

  lemma NothingFilled(d: Doc)
    requires !Awaiting(d)
    ensures NullFilled(d) == d
  {
  }

  /** After every well-nested call sequence that has begun a document, the output is a prefix of a JSON text:
      with `null` for a member value that is awaited and the closers of the open containers it is the text of the
      document the calls describe, and parses to it. Once the document is complete, nothing has to be added. */
  lemma EveryOutputIsViable(events: seq<Event>)
    requires events != [] && DRun(EMPTY, events).Some?
    ensures var d := DRun(EMPTY, events).value;
      var r := CloseAll(NullFilled(d)).root;
      && WRun(INITIAL, events).Some?
      && r.Some?
      && WRun(INITIAL, events).value.out + Completion(d) == Text(r.value)
      && ParseValue(WRun(INITIAL, events).value.out + Completion(d)) == Parsed(AsRead(r.value), [])
      && (d.open == [] ==> Completion(d) == "" && r == d.root)
  {
    hide Text, Wf, Shows, ParseValue, DRun, WRun, Completion;
    InitialShows();
    RunShows(INITIAL, EMPTY, events);
    BegunDocument(EMPTY, events);
    var w, d := WRun(INITIAL, events).value, DRun(EMPTY, events).value;
    StateIsViable(w, d);
    NothingToComplete(d);
    var v := CloseAll(NullFilled(d)).root.value;
    ParseInvertsText(v, []);
    assert Text(v) + [] == Text(v);
  }

  lemma NothingToComplete(d: Doc)
    ensures d.open == [] ==> Completion(d) == "" && CloseAll(NullFilled(d)).root == d.root
  {
  }

  lemma AwaitingIsReady(w: WState, d: Doc)
    requires Shows(w, d) && Awaiting(d)
    ensures Allowed(d, Put(Null)) && DStep(d, Put(Null)) == NullFilled(d) && !Awaiting(NullFilled(d)) && NullFilled(d).open != []
    ensures |NullFilled(d).open| == |d.open| && forall k :: 0 <= k < |d.open| ==> NullFilled(d).open[k].obj == d.open[k].obj
  {
  }

  lemma AwaitedNull(w: WState, d: Doc)
    requires Shows(w, d) && Awaiting(d)
    ensures Callable(w, Put(Null)) && WStep(w, Put(Null)).out == w.out + "null"
  {
    hide Concat, OpensTokens;
    LastCtx(w, d);
    assert OpenOk(Last(d.open));
  }

  /** A run either does nothing or leaves a document that is begun. */
  lemma {:induction false} BegunDocument(d: Doc, events: seq<Event>)
    requires DRun(d, events).Some?
    ensures events == [] || DRun(d, events).value.open != [] || DRun(d, events).value.root.Some?
    decreases events
  {
    if events != [] {
      BegunDocument(DStep(d, events[0]), events[1..]);
    }
  }

  // ---- Driving the writer over a value ----------------------------------------------------------

  /** The calls that write a value in pre-order. */
  function Drive(v: Json): seq<Event>
    decreases v, 1
  {
    if v.Arr? then [OpenArray] + DriveAll(false, [], v.elems) + [CloseArray]
    else if v.Obj? then [OpenObject] + DriveAll(true, v.names, v.elems) + [CloseObject]
    else [Put(v)]
  }

  function NameEvents(obj: bool, name: string): seq<Event> {
    if obj then [Name(name)] else []
  }

  function DriveAll(obj: bool, names: seq<string>, elems: seq<Json>): seq<Event>
    decreases elems, 0
  {
    if elems == [] then []
    else NameEvents(obj, NameAt(names, 0)) + Drive(elems[0]) +
         DriveAll(obj, if names == [] then [] else names[1..], elems[1..])
  }

  lemma {:induction false} DRunAppend(d: Doc, a: seq<Event>, b: seq<Event>)
    requires DRun(d, a).Some?
    ensures DRun(d, a + b) == DRun(DRun(d, a).value, b)
    decreases a
  {
    if a == [] {
      assert a + b == b;
    } else {
      assert (a + b)[1..] == a[1..] + b;
      DRunAppend(DStep(d, a[0]), a[1..], b);
    }
  }

  lemma DRunOne(d: Doc, e: Event)
    requires Allowed(d, e)
    ensures DRun(d, [e]) == Some(DStep(d, e))
  {
    hide DStep;
    assert [e][1..] == [];
  }

  /** Driving the writer over a value is well-nested, and describes that value. */
  lemma {:induction false} DriveBuilds(d: Doc, v: Json)
    requires Ready(d) && Wf(v) && (d.auto ==> d.open != [])
    ensures DRun(d, Drive(v)) == Some(AddValue(d, v))
    decreases v, 1
  {
    hide DRun, Wf;
    if v.IsContainer() {
      WfItems(v);
      DriveAllBuilds(OpenNew(d, v.Obj?), v.Names(), v.elems);
      BracketsBuild(d, v);
    } else {
      DRunOne(d, Put(v));
    }
  }

  lemma BracketsBuild(d: Doc, v: Json)
    requires Ready(d) && v.IsContainer() && (d.auto ==> d.open != [])
    requires DRun(OpenNew(d, v.Obj?), DriveAll(v.Obj?, v.Names(), v.elems)) == Some(Filled(OpenNew(d, v.Obj?), v.Names(), v.elems))
    ensures DRun(d, Drive(v)) == Some(AddValue(d, v))
  {
    hide DRun, DriveAll, DStep, AddValue, Filled, Allowed;
    var obj := v.Obj?;
    var first, last := if obj then OpenObject else OpenArray, if obj then CloseObject else CloseArray;
    var inside, d1 := DriveAll(obj, v.Names(), v.elems), OpenNew(d, obj);
    var d2 := Filled(d1, v.Names(), v.elems);
    BracketSteps(d, v);
    DRunOne(d, first);
    DRunAppend(d, [first], inside);
    DRunOne(d2, last);
    DRunAppend(d, [first] + inside, [last]);
    assert Drive(v) == [first] + inside + [last];
  }

  lemma BracketSteps(d: Doc, v: Json)
    requires Ready(d) && v.IsContainer() && (d.auto ==> d.open != [])
    ensures var first, last := if v.Obj? then OpenObject else OpenArray, if v.Obj? then CloseObject else CloseArray;
      var d2 := Filled(OpenNew(d, v.Obj?), v.Names(), v.elems);
      && Allowed(d, first) && DStep(d, first) == OpenNew(d, v.Obj?)
      && Allowed(d2, last) && DStep(d2, last) == AddValue(d, v)
  {
    var d1 := OpenNew(d, v.Obj?);
    var d2 := Filled(d1, v.Names(), v.elems);
    assert Last(d1.open) == Open(v.Obj?, [], [], None) && Front(d1.open) == d.open;
    assert [] + v.Names() == v.Names() && [] + v.elems == v.elems;
    assert Front(d2.open) == d.open && Last(d2.open).Closed() == v;
  }

  lemma WfItems(v: Json)
    requires Wf(v) && v.IsContainer()
    ensures forall k :: 0 <= k < |v.elems| ==> Wf(v.elems[k])
    ensures |v.Names()| == if v.Obj? then |v.elems| else 0
  {
  }

  /** The document with more items in its innermost container. */
  function Filled(d: Doc, names: seq<string>, elems: seq<Json>): Doc
    requires d.open != []
  {
    var o := Last(d.open);
    d.(open := Front(d.open) + [Open(o.obj, o.names + names, o.done + elems, None)])
  }

  lemma {:induction false} DriveAllBuilds(d: Doc, names: seq<string>, elems: seq<Json>)
    requires d.open != [] && Last(d.open).pending.None?
    requires |names| == if Last(d.open).obj then |elems| else 0
    requires forall k :: 0 <= k < |elems| ==> Wf(elems[k])
    ensures DRun(d, DriveAll(Last(d.open).obj, names, elems)) == Some(Filled(d, names, elems))
    decreases elems, 0
  {
    hide DRun, Wf, Drive, DriveAll, Filled, NameEvents;
    var obj := Last(d.open).obj;
    if elems == [] {
      DRunNothing(d);
      NothingDriven(d, names);
    } else {
      var names' := if obj then names[1..] else [];
      var front := if obj then [names[0]] else [];
      DriveBuilds(if obj then AwaitName(d, names[0]) else d, elems[0]);
      NamedItemBuilds(d, if obj then names[0] else [], elems[0]);
      var d2 := Filled(d, front, [elems[0]]);
      FilledShape(d, front, [elems[0]]);
      DriveAllBuilds(d2, names', elems[1..]);
      FilledTwice(d, front, [elems[0]], names', elems[1..]);
      assert front + names' == names && [elems[0]] + elems[1..] == elems;
      DriveAllUnfolds(obj, names, elems);
      DRunAppend(d, NameEvents(obj, NameAt(names, 0)) + Drive(elems[0]), DriveAll(obj, names', elems[1..]));
    }
  }

  lemma NothingDriven(d: Doc, names: seq<string>)
    requires d.open != [] && Last(d.open).pending.None? && names == []
    ensures DriveAll(Last(d.open).obj, names, []) == [] && Filled(d, names, []) == d
  {
    var o := Last(d.open);
    assert o.names + names == o.names && o.done + [] == o.done;
    assert Front(d.open) + [o] == d.open;
  }

  lemma FilledShape(d: Doc, names: seq<string>, elems: seq<Json>)
    requires d.open != []
    ensures var o := Filled(d, names, elems).open;
      o != [] && Last(o).obj == Last(d.open).obj && Last(o).pending.None?
  {
  }

  lemma DriveAllUnfolds(obj: bool, names: seq<string>, elems: seq<Json>)
    requires elems != [] && |names| == if obj then |elems| else 0
    ensures DriveAll(obj, names, elems)
         == NameEvents(obj, NameAt(names, 0)) + Drive(elems[0]) + DriveAll(obj, if obj then names[1..] else [], elems[1..])
  {
  }

  lemma FilledTwice(d: Doc, names: seq<string>, elems: seq<Json>, names': seq<string>, elems': seq<Json>)
    requires d.open != []
    ensures Filled(Filled(d, names, elems), names', elems') == Filled(d, names + names', elems + elems')
    ensures Last(Filled(d, names, elems).open).obj == Last(d.open).obj
  {
    var o, d' := Last(d.open), Filled(d, names, elems);
    assert Front(d'.open) == Front(d.open);
    assert o.names + names + names' == o.names + (names + names');
    assert o.done + elems + elems' == o.done + (elems + elems');
  }

  lemma NamedItemBuilds(d: Doc, name: string, v: Json)
    requires d.open != [] && Last(d.open).pending.None?
    requires var d1 := if Last(d.open).obj then AwaitName(d, name) else d; DRun(d1, Drive(v)) == Some(AddValue(d1, v))
    ensures DRun(d, NameEvents(Last(d.open).obj, name) + Drive(v))
         == Some(Filled(d, if Last(d.open).obj then [name] else [], [v]))
  {
    hide DRun, Drive;
    var o := Last(d.open);
    if o.obj {
      DRunOne(d, Name(name));
    } else {
      DRunNothing(d);
      assert o.names + [] == o.names;
    }
    DRunAppend(d, NameEvents(o.obj, name), Drive(v));
    var d1 := if o.obj then AwaitName(d, name) else d;
    assert Front(d1.open) == Front(d.open);
  }

  lemma DRunNothing(d: Doc)
    ensures DRun(d, []) == Some(d)
  {
  }

  /** Writing a value gives its text, and parsing that gives the value. */
  lemma WriteThenParse(v: Json)
    requires Wf(v)
    ensures WRun(INITIAL, Drive(v)).Some? && WRun(INITIAL, Drive(v)).value.out == Text(v)
    ensures ParseValue(WRun(INITIAL, Drive(v)).value.out) == Parsed(AsRead(v), [])
  {
    DriveBuilds(EMPTY, v);
    DriveIsNotEmpty(v);
    EveryOutputIsViable(Drive(v));
    var out := WRun(INITIAL, Drive(v)).value.out;
    assert out + "" == out;
  }

  lemma DriveIsNotEmpty(v: Json)
    ensures Drive(v) != []
  {
  }

  // ---- The automatic root -----------------------------------------------------------------------

  /** No call but the closing of the root looks at the automatic-root flag. */
  lemma StepIgnoresAuto(w: WState, auto: bool, e: Event)
    requires Callable(w, e)
    ensures Callable(w.(autoRoot := auto), e)
    ensures WStep(w.(autoRoot := auto), e).out == WStep(w, e).out
    ensures WStep(w.(autoRoot := auto), e).stack == WStep(w, e).stack
  {
    hide Quote, ScalarToken, OpenChar;
    match e
    case Name(name) => NameIgnoresAuto(w, auto, name);
    case Put(v) => assert BeforeValue(w.(autoRoot := auto)) == BeforeValue(w).(autoRoot := auto);
    case _ =>
  }

  lemma NameIgnoresAuto(w: WState, auto: bool, name: string)
    requires w.stack != []
    ensures WStep(w.(autoRoot := auto), Name(name)).out == WStep(w, Name(name)).out
    ensures WStep(w.(autoRoot := auto), Name(name)).stack == WStep(w, Name(name)).stack
  {
    hide Quote;
  }

  predicate SameButAuto(w: WState, w': WState) {
    w.out == w'.out && w.stack == w'.stack
  }

  lemma {:induction false} RunIgnoresAuto(w: WState, w': WState, events: seq<Event>)
    requires SameButAuto(w, w')
    ensures WRun(w, events).Some? <==> WRun(w', events).Some?
    ensures WRun(w, events).Some? ==> SameButAuto(WRun(w, events).value, WRun(w', events).value)
    decreases events
  {
    hide WStep;
    assert w' == w.(autoRoot := w'.autoRoot);
    assert w == w'.(autoRoot := w.autoRoot);
    if events != [] && Callable(w, events[0]) {
      StepIgnoresAuto(w, w'.autoRoot, events[0]);
      RunIgnoresAuto(WStep(w, events[0]), WStep(w', events[0]), events[1..]);
    }
  }

  /** `buffer()` closes every open container with `}`. */
  function Braces(n: nat): (r: string)
    ensures |r| == n
  {
    if n == 0 then [] else "}" + Braces(n - 1)
  }

  lemma {:induction false} BufferAddsBraces(w: WState)
    requires w.autoRoot && |w.stack| >= 2
    ensures BufferState(w).out == w.out + Braces(|w.stack| - 1) && |BufferState(w).stack| == 1
    decreases |w.stack|
  {
    var w' := CloseObjectStep(w);
    if |w'.stack| >= 2 {
      BufferAddsBraces(w');
      assert w.out + "}" + Braces(|w'.stack| - 1) == w.out + ("}" + Braces(|w'.stack| - 1));
    } else {
      assert Braces(1) == "}" + Braces(0);
      assert w.out + Braces(1) == w.out + "}";
    }
  }

  lemma {:induction false} ClosersAreBraces(open: seq<Open>)
    ensures |Closers(open)| == |open|
    ensures Closers(open) == Braces(|open|) <==> forall k :: 0 <= k < |open| ==> open[k].obj
    decreases |open|
  {
    if open != [] {
      var front := Front(open);
      ClosersAreBraces(front);
      assert Closers(open)[0] == CloseChar(Last(open).obj) && Closers(open)[1..] == Closers(front);
      assert Braces(|open|)[0] == '}' && Braces(|open|)[1..] == Braces(|front|);
      if Closers(open) == Braces(|open|) {
        forall k | 0 <= k < |open| ensures open[k].obj {
          if k < |open| - 1 {
            assert front[k] == open[k];
          }
        }
      }
    }
  }

  /** Starting with a member name and ending with `buffer()` gives the text of the run that opens and closes the root
      object itself. */
  lemma AutoRootIsExplicitRoot(name: string, events: seq<Event>)
    requires var d := DRun(EMPTY, [Name(name)] + events); d.Some? && |d.value.open| == 1 && !Awaiting(d.value)
    ensures var auto := WRun(INITIAL, [Name(name)] + events);
      var explicit := WRun(INITIAL, [OpenObject, Name(name)] + events + [CloseObject]);
      && auto.Some? && explicit.Some? && auto.value.autoRoot && |auto.value.stack| == 2
      && BufferState(auto.value).out == explicit.value.out
  {
    hide Shows, Quote, WStep;
    assert ([Name(name)] + events)[1..] == events;
    AutoLastsAsLongAsRoot(DStep(EMPTY, Name(name)), events);
    hide DRun;
    InitialShows();
    RunShows(INITIAL, EMPTY, [Name(name)] + events);
    var w := WRun(INITIAL, [Name(name)] + events).value;
    AutoStack(w, DRun(EMPTY, [Name(name)] + events).value);
    FirstNameOpensRoot(name);
    var w1, w2 := WStep(INITIAL, Name(name)), WStep(WStep(INITIAL, OpenObject), Name(name));
    RunIgnoresAuto(w1, w2, events);
    var all := [OpenObject, Name(name)] + events + [CloseObject];
    assert all[1..] == [Name(name)] + events + [CloseObject];
    assert all[1..][1..] == events + [CloseObject];
    assert WRun(INITIAL, all) == WRun(WStep(INITIAL, OpenObject), all[1..]) == WRun(w2, events + [CloseObject]);
    var w' := WRun(w2, events).value;
    WRunSnoc(w2, events, CloseObject);
    BufferAddsBraces(w);
    CloseAddsBrace(w');
  }

  /** The automatic root counts as open exactly until it is closed. */
  lemma {:induction false} AutoLastsAsLongAsRoot(d: Doc, events: seq<Event>)
    requires d.auto == (d.open != []) && (d.open == [] ==> d.root.Some?)
    requires DRun(d, events).Some?
    ensures var d' := DRun(d, events).value;
      d'.auto == (d'.open != []) && (d'.open == [] ==> d'.root.Some?)
    decreases events
  {
    if events != [] {
      AutoLastsAsLongAsRoot(DStep(d, events[0]), events[1..]);
    }
  }

  lemma AutoStack(w: WState, d: Doc)
    requires Shows(w, d) && d.auto && |d.open| == 1
    ensures w.autoRoot && |w.stack| == 2
  {
  }

  lemma FirstNameOpensRoot(name: string)
    ensures Callable(INITIAL, Name(name)) && Callable(INITIAL, OpenObject)
    ensures Callable(WStep(INITIAL, OpenObject), Name(name))
    ensures SameButAuto(WStep(INITIAL, Name(name)), WStep(WStep(INITIAL, OpenObject), Name(name)))
  {
    hide Quote;
  }

  lemma CloseAddsBrace(w: WState)
    requires w.stack != []
    ensures WStep(w, CloseObject).out == w.out + Braces(1)
  {
    assert Braces(1) == "}" + Braces(0);
  }

  lemma {:induction false} WRunSnoc(w: WState, events: seq<Event>, e: Event)
    requires WRun(w, events).Some? && Callable(WRun(w, events).value, e)
    ensures WRun(w, events + [e]) == Some(WStep(WRun(w, events).value, e))
    decreases events
  {
    hide WStep, Callable;
    if events == [] {
      assert events + [e] == [e] && [e][1..] == [];
    } else {
      assert (events + [e])[1..] == events[1..] + [e];
      WRunSnoc(WStep(w, events[0]), events[1..], e);
    }
  }
}
