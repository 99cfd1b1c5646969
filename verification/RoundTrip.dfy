/** Driving the stream object over a value, and reading its text back with the parse host. */
module RoundTrip {
  import opened Chars
  import opened Json
  import opened Grammar
  import Dialect
  import opened Arena
  import opened Cursor
  import opened ParseHost
  import opened Writer
  import opened WriterLimits

  /** The document a first member name leaves: the automatic root is open. */
  function Root(d: Doc): Doc {
    if d.open == [] then OpenNew(d, true).(auto := true) else d
  }

  /** A member name may come next. */
  predicate NameReady(d: Doc) {
    Allowed(d, Name(""))
  }

  lemma AwaitNameOfRoot(d: Doc, name: string)
    requires NameReady(d)
    ensures Allowed(d, Name(name)) && DStep(d, Name(name)) == AwaitName(Root(d), name)
    ensures Root(d).open != [] && Last(Root(d).open).obj && Last(Root(d).open).pending.None?
    ensures Root(Root(d)) == Root(d) && NameReady(Root(d)) && (d.root.None? ==> Root(d).root.None?)
  {
  }

  lemma ReadyShape(d: Doc, name: string)
    requires NameReady(d)
    ensures var d1 := AwaitName(Root(d), name);
      && Ready(d1) && (d1.auto ==> d1.open != [])
      && forall v :: AddValue(d1, v) == Filled(Root(d), [name], [v])
  {
    var o := Last(Root(d).open);
    var d1 := AwaitName(Root(d), name);
    assert Front(d1.open) == Front(Root(d).open);
    assert Last(d1.open) == o.(pending := Some(name));
  }

  lemma FilledIsNameReady(d: Doc, names: seq<string>, elems: seq<Json>)
    requires d.open != [] && Last(d.open).obj
    ensures NameReady(Filled(d, names, elems)) && Root(Filled(d, names, elems)) == Filled(d, names, elems)
    ensures Filled(d, names, elems).open != [] && Last(Filled(d, names, elems).open).pending.None?
  {
  }

  lemma FilledWithNothing(d: Doc)
    requires d.open != [] && Last(d.open).pending.None?
    ensures Filled(d, [], []) == d
  {
    var o := Last(d.open);
    assert o.names + [] == o.names && o.done + [] == o.done && Front(d.open) + [o] == d.open;
  }

  lemma FilledStep(d: Doc, names: seq<string>, elems: seq<Json>, k: nat)
    requires d.open != [] && k < |elems| && |names| == if Last(d.open).obj then |elems| else 0
    ensures var obj := Last(d.open).obj;
      && Filled(Filled(d, if obj then names[..k] else [], elems[..k]), if obj then [names[k]] else [], [elems[k]])
         == Filled(d, if obj then names[..k + 1] else [], elems[..k + 1])
      && Last(Filled(d, if obj then names[..k] else [], elems[..k]).open).obj == obj
  {
    var obj := Last(d.open).obj;
    var front, one := if obj then names[..k] else [], if obj then [names[k]] else [];
    FilledTwice(d, front, elems[..k], one, [elems[k]]);
    assert elems[..k] + [elems[k]] == elems[..k + 1];
    assert front + one == if obj then names[..k + 1] else [];
  }

  /** What a stream has written so far, kept beside it. */
  ghost predicate Writes(w: JsonStream, d: Doc)
    reads w
  {
    Shows(w.State(), d)
  }

  lemma WritesHasStack(w: JsonStream, d: Doc)
    requires Writes(w, d)
    ensures w.stack != []
  {
  }

  method WriteScalar(w: JsonStream, v: Json, ghost d: Doc)
    requires Writes(w, d) && Ready(d) && !v.IsContainer() && Writable(v)
    modifies w
    ensures Writes(w, AddValue(d, v))
  {
    hide Shows, DocOk, Concat, OpensTokens, WStep, IntText, Wf, IsInt32;
    WritesHasStack(w, d);
    WritableIsWf(v);
    StepShows(w.State(), d, Put(v));
    match v
    case Null => w.AddNull();
    case Bool(b) => w.AddBoolean(b);
    case Int(n) => w.AddNumber(n);
    case Real(tok) => w.AddFloat(tok);
    case Str(s) => w.AddString(s);
  }

  /** Writes a member of the innermost object, opening the automatic root where there is none. */
  method WriteMember(w: JsonStream, name: string, v: Json, ghost d: Doc)
    requires Writes(w, d) && NameReady(d) && IsCString(name) && Writable(v)
    modifies w
    ensures Writes(w, Filled(Root(d), [name], [v]))
    decreases v, 2
  {
    hide Shows, WStep, DStep, Writable;
    WritesHasStack(w, d);
    AwaitNameOfRoot(d, name);
    ReadyShape(d, name);
    StepShows(w.State(), d, Name(name));
    w.AddMemberName(name);
    WriteValue(w, v, AwaitName(Root(d), name));
  }

  /** Members the stream's calls can be given. */
  predicate AllWritable(names: seq<string>, elems: seq<Json>) {
    |names| == |elems| && forall k :: 0 <= k < |elems| ==> IsCString(names[k]) && Writable(elems[k])
  }

  method WriteMembers(w: JsonStream, names: seq<string>, elems: seq<Json>, ghost d: Doc)
    requires Writes(w, d) && NameReady(d) && AllWritable(names, elems)
    modifies w
    ensures Writes(w, if elems == [] then d else Filled(Root(d), names, elems))
    decreases elems, 0
  {
    hide Shows, Writable, IsCString, Filled, Root;
    ghost var root := Root(d);
    RootFacts(d);
    for k := 0 to |elems|
      invariant Writes(w, if k == 0 then d else Filled(root, names[..k], elems[..k]))
    {
      ghost var dk := if k == 0 then d else Filled(root, names[..k], elems[..k]);
      MemberFacts(d, names, elems, k);
      WriteMember(w, names[k], elems[k], dk);
    }
    assert names[..|elems|] == names && elems[..|elems|] == elems;
  }

  lemma RootFacts(d: Doc)
    requires NameReady(d)
    ensures Root(d).open != [] && Last(Root(d).open).obj && Last(Root(d).open).pending.None?
  {
  }

  lemma MemberFacts(d: Doc, names: seq<string>, elems: seq<Json>, k: nat)
    requires NameReady(d) && k < |elems| == |names|
    ensures var dk := if k == 0 then d else Filled(Root(d), names[..k], elems[..k]);
      NameReady(dk) && Filled(Root(dk), [names[k]], [elems[k]]) == Filled(Root(d), names[..k + 1], elems[..k + 1])
  {
    hide Filled;
    RootFacts(d);
    FilledStep(Root(d), names, elems, k);
    if k == 0 {
      FilledWithNothing(Root(d));
      assert names[..0] == [] && elems[..0] == [];
    } else {
      FilledIsNameReady(Root(d), names[..k], elems[..k]);
    }
  }

  method WriteElements(w: JsonStream, elems: seq<Json>, ghost d: Doc)
    requires Writes(w, d) && d.open != [] && !Last(d.open).obj && Last(d.open).pending.None? && (d.auto ==> d.open != [])
    requires forall k :: 0 <= k < |elems| ==> Writable(elems[k])
    modifies w
    ensures Writes(w, Filled(d, [], elems))
    decreases elems, 0
  {
    hide Shows, Writable, Filled;
    FilledWithNothing(d);
    assert elems[..0] == [];
    for k := 0 to |elems|
      invariant Writes(w, Filled(d, [], elems[..k]))
    {
      FilledStep(d, [], elems, k);
      ElementFacts(d, elems, k);
      WriteValue(w, elems[k], Filled(d, [], elems[..k]));
    }
    assert elems[..|elems|] == elems;
  }

  lemma ElementFacts(d: Doc, elems: seq<Json>, k: nat)
    requires d.open != [] && !Last(d.open).obj && k < |elems|
    ensures var dk := Filled(d, [], elems[..k]);
      && Ready(dk) && dk.open != []
      && AddValue(dk, elems[k]) == Filled(dk, [], [elems[k]])
  {
    var dk := Filled(d, [], elems[..k]);
    assert Last(dk.open).names + [] == Last(dk.open).names;
  }

  /** Writes a value in pre-order. */
  method WriteValue(w: JsonStream, v: Json, ghost d: Doc)
    requires Writes(w, d) && Ready(d) && Writable(v) && (d.auto ==> d.open != [])
    modifies w
    ensures Writes(w, AddValue(d, v))
    decreases v, 1
  {
    hide Shows, WStep, DStep, Writable, IsCString, Filled;
    if v.IsContainer() {
      WritableItems(v);
      ContainerFacts(d, v);
      ghost var d1 := OpenNew(d, v.Obj?);
      ghost var d2 := Filled(d1, v.Names(), v.elems);
      if v.Obj? {
        StepShows(w.State(), d, OpenObject);
        w.DoOpenObject();
        WriteMembers(w, v.names, v.elems, d1);
        WritesHasStack(w, d2);
        StepShows(w.State(), d2, CloseObject);
        w.DoCloseObject();
      } else {
        StepShows(w.State(), d, OpenArray);
        w.DoOpenArray();
        WriteElements(w, v.elems, d1);
        WritesHasStack(w, d2);
        StepShows(w.State(), d2, CloseArray);
        w.DoCloseArray();
      }
    } else {
      WriteScalar(w, v, d);
    }
  }

  lemma WritableItems(v: Json)
    requires Writable(v) && v.IsContainer()
    ensures forall k :: 0 <= k < |v.elems| ==> Writable(v.elems[k])
    ensures v.Obj? ==> AllWritable(v.names, v.elems)
    ensures |v.Names()| == if v.Obj? then |v.elems| else 0
  {
  }

  lemma ContainerFacts(d: Doc, v: Json)
    requires Ready(d) && v.IsContainer() && (d.auto ==> d.open != [])
    ensures var d1 := OpenNew(d, v.Obj?);
      var d2 := Filled(d1, v.Names(), v.elems);
      var close := if v.Obj? then CloseObject else CloseArray;
      && DStep(d, if v.Obj? then OpenObject else OpenArray) == d1
      && d1.open != [] && Last(d1.open).obj == v.Obj? && Last(d1.open).pending.None?
      && (v.Obj? ==> NameReady(d1)) && Root(d1) == d1
      && (v.elems == [] && v.Names() == [] ==> d2 == d1)
      && Allowed(d2, close) && DStep(d2, close) == AddValue(d, v)
  {
    var d1 := OpenNew(d, v.Obj?);
    var d2 := Filled(d1, v.Names(), v.elems);
    assert Front(d1.open) == d.open == Front(d2.open);
    assert [] + v.Names() == v.Names() && [] + v.elems == v.elems;
    assert Last(d2.open).Closed() == v;
  }

  lemma RootOfFilled(names: seq<string>, elems: seq<Json>)
    requires |names| == |elems|
    ensures var d1 := if elems == [] then EMPTY else Filled(Root(EMPTY), names, elems);
      NameReady(d1) && Root(d1) == if elems == [] then Root(EMPTY) else d1
    ensures elems == [] ==> Filled(Root(EMPTY), names, elems) == Root(EMPTY)
  {
    if elems == [] {
      FilledWithNothing(Root(EMPTY));
    } else {
      FilledIsNameReady(Root(EMPTY), names, elems);
    }
  }

  /** With only the automatic root open, `buffer()` gives the text of the root object. */
  lemma AutoRootText(w: WState, names: seq<string>, elems: seq<Json>)
    requires Shows(w, Filled(Root(EMPTY), names, elems))
    ensures w.autoRoot && |w.stack| == 2 && BufferState(w).out == Text(Obj(names, elems))
  {
    hide Text, BufferState;
    var d := Filled(Root(EMPTY), names, elems);
    assert [] + names == names && [] + elems == elems;
    var o := Open(true, names, elems, None);
    assert d == Doc(None, [o], true);
    BufferFinishesObjects(w, d);
    RootCloses(o);
  }

  lemma RootCloses(o: Open)
    requires o.obj
    ensures CloseAll(Doc(None, [o], true)).root == Some(o.Closed())
  {
    var d := CloseLast(Doc(None, [o], true));
    assert Front([o]) == [] && CloseAll(d) == d;
  }

  /** Three runs of writable members make one object that the grammar can print. */
  lemma DocumentIsWf(a: seq<string>, x: seq<Json>, b: seq<string>, y: seq<Json>, c: seq<string>, z: seq<Json>)
    requires AllWritable(a, x) && AllWritable(b, y) && AllWritable(c, z)
    ensures Wf(Obj(a + b + c, x + y + z))
  {
    hide Writable;
    forall k | 0 <= k < |x + y + z| ensures Wf((x + y + z)[k]) {
      WritableIsWf((x + y + z)[k]);
    }
  }

  /** Writing any value with a new stream and parsing the buffer restores the value: it is what the root node of the
      arena denotes, what the arena lays out, and what the cursor stands in front of. */
  method WriteAndParse(v: Json, strtod: string -> int) returns (text: string, p: JsonParse)
    requires Writable(v)
    ensures text == Text(v)
    ensures fresh(p) && p.Valid() && p.realToInt == strtod
    ensures p.root == 0 && |p.nodes| >= 2 && Tree(p.nodes, 0) == AsRead(v) && p.nodes[..|p.nodes| - 1] == Flatten(AsRead(v), 0)
    ensures p.View() == [Group(false, [], [AsRead(v)])]
    ensures FloatsAreMarked(v) ==> Tree(p.nodes, 0) == v
  {
    hide Tree, Flatten, Text, Writable, Wf, AsRead, FloatsAreMarked;
    WritableIsWf(v);
    var w := new JsonStream();
    InitialShows();
    WriteValue(w, v, EMPTY);
    CompletedText(w, v);
    text := w.Buffer();
    ParseInvertsText(v, []);
    AsReadKeepsMarked(v);
    assert Text(v) + [] == Text(v);
    p := new JsonParse(text, strtod);
  }

  lemma CompletedText(w: JsonStream, v: Json)
    requires Writes(w, AddValue(EMPTY, v))
    ensures w.out == Text(v) && !w.autoRootOpened && BufferState(w.State()) == w.State()
  {
  }

  // ---- A document that cannot be read through ---------------------------------------------------

  /** The positions the reads of that document lead through. */
  lemma StallingSteps()
    ensures var c0, c1 := [Group(false, [], [Arr([Arr([]), Int(1)])])], [Group(false, [], [Arr([]), Int(1)])];
      && Step(c0, EnterArray) == Some(c1) && Step(c1, EnterArray).Some?
      && Step(Step(c1, EnterArray).value, ReadNumber) == None
  {
    hide Work, Step;
    EmptyContainerStalls();
    EnterLast(Arr([Arr([]), Int(1)]));
  }

  /** In the text `[[], 1]` the number cannot be read once the empty array has been entered. */
  method ReadBehindEmptyArray(strtod: string -> int) returns (entered: bool, enteredEmpty: bool, read: bool)
    ensures entered && enteredEmpty && !read
  {
    hide ParseValue, Tree, Flatten, Step, Head, Groups, FrameFits, ArenaFits, ItemCount;
    Dialect.StallingIsAccepted();
    StallingSteps();
    var parse := new JsonParse(Dialect.STALLING, strtod);
    var num, v;
    entered, num := parse.EnterContainer(false);
    enteredEmpty, num := parse.EnterContainer(false);
    read, v := parse.Number();
  }
}
