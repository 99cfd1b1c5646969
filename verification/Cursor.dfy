/** The pull cursor over the arena: what remains to be read, and which calls read it. */
module Cursor {
  import opened Chars
  import opened Json

  // ---- The cursor as a value --------------------------------------------------------------------

  /** What is still unread of one entered container. */
  datatype Group = Group(obj: bool, names: seq<string>, vals: seq<Json>)
  {
    function Drop(): Group
      requires vals != []
    {
      Group(obj, if names == [] then [] else names[1..], vals[1..])
    }
  }

  /** The entered containers, innermost last. */
  type Position = seq<Group>

  function Top(c: Position): Group
    requires c != []
  {
    c[|c| - 1]
  }

  function Below(c: Position): Position
    requires c != []
  {
    c[..|c| - 1]
  }

  /** The value the next read would return. */
  function Head(c: Position): Option<Json> {
    if c == [] || Top(c).vals == [] then None else Some(Top(c).vals[0])
  }

  /** Leaves the exhausted containers on top. */
  function Settle(c: Position): (r: Position)
    ensures r <= c
  {
    if c == [] || Top(c).vals != [] then c else Settle(Below(c))
  }

  function Advance(c: Position): Position
    requires Head(c).Some?
  {
    Settle(Below(c) + [Top(c).Drop()])
  }

  function Inside(v: Json): Group
    requires v.IsContainer()
  {
    Group(v.Obj?, v.Names(), v.elems)
  }

  datatype Read = ReadNumber | ReadString | ReadBoolean | ReadNull | EnterArray | EnterObject | SkipMember

  /** Whether a value is of the kind a read asks for. */
  predicate Fits(read: Read, v: Json) {
    match read
    case ReadNumber => v.Int? || v.Real?
    case ReadString => v.Str?
    case ReadBoolean => v.Bool?
    case ReadNull => v.Null?
    case EnterArray => v.Arr?
    case EnterObject => v.Obj?
    case SkipMember => true
  }

  predicate Enters(read: Read) {
    read.EnterArray? || read.EnterObject?
  }

  /** The position after a read, or none if the call returns false (and changes nothing). */
  function Step(c: Position, read: Read): Option<Position> {
    match Head(c)
    case None => None
    case Some(v) =>
      if !Fits(read, v) || (read.SkipMember? && !Top(c).obj) then None
      else if Enters(read) then Some(Advance(c) + [Inside(v)])
      else Some(Advance(c))
  }

  /** `matchName`: the next value is a member of that name. */
  predicate NameIs(c: Position, name: string) {
    c != [] && Top(c).obj && Top(c).names != [] && Top(c).names[0] == name
  }

  /** A read succeeds exactly on a value of the kind it asks for; skipping, exactly on a member of an object. */
  lemma ReadsFindTheirKind(c: Position)
    ensures Head(c) == None ==> forall read :: Step(c, read) == None
    ensures Head(c).Some? ==>
      var v := Head(c).value;
      && (Step(c, ReadNumber).Some? <==> v.Int? || v.Real?)
      && (Step(c, ReadString).Some? <==> v.Str?) && (Step(c, ReadBoolean).Some? <==> v.Bool?)
      && (Step(c, ReadNull).Some? <==> v.Null?)
      && (Step(c, EnterArray).Some? <==> v.Arr?) && (Step(c, EnterObject).Some? <==> v.Obj?)
      && (Step(c, SkipMember).Some? <==> c[|c| - 1].obj)
  {
  }

  // ---- The worklist -----------------------------------------------------------------------------

  /** Everything unread, innermost container first. */
  function Work(c: Position): seq<Json> {
    if c == [] then [] else Top(c).vals + Work(Below(c))
  }

  /** No entered container is exhausted. */
  predicate Live(c: Position) {
    forall k :: 0 <= k < |c| ==> c[k].vals != []
  }

  lemma {:induction false} SettleKeepsWork(c: Position)
    ensures Work(Settle(c)) == Work(c)
  {
    if c != [] && Top(c).vals == [] {
      SettleKeepsWork(Below(c));
    }
  }

  lemma WorkPush(c: Position, g: Group)
    ensures Work(c + [g]) == g.vals + Work(c)
  {
    assert Below(c + [g]) == c;
  }

  /** Advancing drops the head of the worklist. */
  lemma AdvanceDropsHead(c: Position)
    requires Head(c).Some?
    ensures Work(c) == [Head(c).value] + Work(Advance(c))
  {
    hide Settle;
    var v, g := Top(c).vals[0], Top(c).Drop();
    SettleKeepsWork(Below(c) + [g]);
    WorkPush(Below(c), g);
    WorkPush(Below(c), Top(c));
    assert Below(c) + [Top(c)] == c;
    assert Top(c).vals == [v] + g.vals;
  }

  /** A read drops the head of the worklist, and entering a container puts its children there instead. */
  lemma StepRefinesWorklist(c: Position, read: Read)
    requires Step(c, read).Some?
    ensures var c', v := Step(c, read).value, Head(c).value;
      Work(c') == (if Enters(read) then v.elems else []) + Work(c)[1..]
  {
    hide Work, Settle;
    AdvanceDropsHead(c);
    if Enters(read) {
      WorkPush(Advance(c), Inside(Head(c).value));
    } else {
      assert [] + Work(c)[1..] == Work(c)[1..];
    }
  }

  lemma {:induction false} SizeAllAppend(a: seq<Json>, b: seq<Json>)
    ensures SizeAll(a + b) == SizeAll(a) + SizeAll(b)
  {
    hide Size;
    if a == [] {
      assert a + b == b;
    } else {
      assert (a + b)[1..] == a[1..] + b;
      SizeAllAppend(a[1..], b);
    }
  }

  /** Every read that succeeds makes the rest smaller: by the one container entered,
      or by the whole value read or skipped. */
  lemma StepShrinksWork(c: Position, read: Read)
    requires Step(c, read).Some?
    ensures var v := Head(c).value;
      SizeAll(Work(c)) == SizeAll(Work(Step(c, read).value)) + if Enters(read) then 1 else Size(v)
  {
    hide Work, Settle, Size;
    AdvanceDropsHead(c);
    var v, rest := Head(c).value, Work(c)[1..];
    StepRefinesWorklist(c, read);
    SizeAllAppend([v], rest);
    assert [v][1..] == [] && [v] + rest == Work(c);
    if Enters(read) {
      SizeAllAppend(v.elems, rest);
      SizeOfContainer(v);
    } else {
      assert [] + rest == rest;
    }
  }

  lemma SizeOfContainer(v: Json)
    requires v.IsContainer()
    ensures Size(v) == 1 + SizeAll(v.elems)
  {
  }

  lemma {:induction false} SettleIsLive(c: Position)
    requires c != [] ==> Live(Below(c))
    ensures Live(Settle(c))
  {
    if c != [] && Top(c).vals == [] && Below(c) != [] {
      assert Top(Below(c)).vals != [];
    }
  }

  /** A live position shows the head of its worklist; a read keeps it live exactly when the container it enters,
      if any, is not empty. */
  lemma StepKeepsLive(c: Position, read: Read)
    requires Live(c) && Step(c, read).Some?
    ensures Live(Step(c, read).value) <==> (Enters(read) ==> Head(c).value.elems != [])
  {
    hide Settle;
    var g := Top(c).Drop();
    assert Below(Below(c) + [g]) == Below(c);
    SettleIsLive(Below(c) + [g]);
    assert Live(Advance(c));
    if Enters(read) {
      var c' := Step(c, read).value;
      assert c'[|c'| - 1] == Inside(Head(c).value);
    }
  }

  lemma LiveShowsHead(c: Position)
    requires Live(c)
    ensures Head(c) == if Work(c) == [] then None else Some(Work(c)[0])
  {
  }

  // ---- Runs -------------------------------------------------------------------------------------

  /** A run of reads; a read that returns false leaves the position as it is. */
  function Run(c: Position, calls: seq<Read>): Position
    decreases calls
  {
    if calls == [] then c
    else Run(match Step(c, calls[0]) case None => c case Some(c') => c', calls[1..])
  }

  /** The reads of a run that succeed. */
  function Successes(c: Position, calls: seq<Read>): nat
    decreases calls
  {
    if calls == [] then 0
    else match Step(c, calls[0])
      case None => Successes(c, calls[1..])
      case Some(c') => 1 + Successes(c', calls[1..])
  }

  /** No read of the run enters an empty container. */
  predicate EntersOnlyFilled(c: Position, calls: seq<Read>)
    decreases calls
  {
    calls != [] ==>
      match Step(c, calls[0])
      case None => EntersOnlyFilled(c, calls[1..])
      case Some(c') => (Enters(calls[0]) ==> Head(c).value.elems != []) && EntersOnlyFilled(c', calls[1..])
  }

  /** Over any run the cursor shows the head of its worklist, as long as only filled containers are entered. */
  lemma {:induction false} RunStaysLive(c: Position, calls: seq<Read>)
    requires Live(c) && EntersOnlyFilled(c, calls)
    ensures Live(Run(c, calls))
    decreases calls
  {
    hide Step;
    if calls != [] {
      match Step(c, calls[0])
      case None => RunStaysLive(c, calls[1..]);
      case Some(c') =>
        StepKeepsLive(c, calls[0]);
        RunStaysLive(c', calls[1..]);
    }
  }

  /** No run has more successful reads than the unread values it starts with. */
  lemma {:induction false} RunsAreBounded(c: Position, calls: seq<Read>)
    ensures Successes(c, calls) + SizeAll(Work(Run(c, calls))) <= SizeAll(Work(c))
    decreases calls
  {
    hide Work, Size, SizeAll;
    if calls != [] {
      match Step(c, calls[0])
      case None => RunsAreBounded(c, calls[1..]);
      case Some(c') =>
        SizePositive(Head(c).value);
        StepShrinksWork(c, calls[0]);
        RunsAreBounded(c', calls[1..]);
    }
  }

  lemma SizePositive(v: Json)
    ensures Size(v) >= 1
  {
  }

  /** Behind an exhausted container every read fails, for good: nothing pops a container that was entered empty. */
  lemma {:induction false} StallsForever(c: Position, calls: seq<Read>)
    requires c != [] && Top(c).vals == []
    ensures Run(c, calls) == c && Successes(c, calls) == 0
  {
    if calls != [] {
      StallsForever(c, calls[1..]);
    }
  }

  /** Entering a container hides the rest of the document exactly when the container is empty and a rest exists. */
  lemma EnteringHidesTheRest(c: Position, read: Read)
    requires Live(c) && Step(c, read).Some? && Enters(read)
    ensures var c' := Step(c, read).value;
      (Head(c').None? && Work(c') != []) <==> (Head(c).value.elems == [] && Work(c)[1..] != [])
  {
    hide Work, Settle;
    StepRefinesWorklist(c, read);
    var c', v := Step(c, read).value, Head(c).value;
    assert Top(c') == Inside(v);
  }

  /** Entering the array that is all there is leaves what it holds. */
  lemma EnterLast(v: Json)
    requires v.Arr?
    ensures Step([Group(false, [], [v])], EnterArray) == Some([Group(false, [], v.elems)])
  {
    var c := [Group(false, [], [v])];
    assert Top(c) == Group(false, [], [v]) && [v][1..] == [];
    assert Below(c) == [];
    LeavesLast();
    assert Below(c) + [Top(c).Drop()] == [Group(false, [], [])];
    assert Advance(c) == [] && [] + [Inside(v)] == [Inside(v)];
  }

  lemma LeavesLast()
    ensures Settle([Group(false, [], [])]) == []
  {
    var c := [Group(false, [], [])];
    assert Top(c) == Group(false, [], []) && Below(c) == [];
    assert Settle(c) == Settle(Below(c));
  }

  /** The document `[[], 1]`: after the empty array is entered, the number cannot be read. */
  lemma EmptyContainerStalls()
    ensures var c := [Group(false, [], [Arr([]), Int(1)])];
      && Step(c, EnterArray).Some?
      && Step(Step(c, EnterArray).value, ReadNumber).None?
      && Work(Step(c, EnterArray).value) == [Int(1)]
  {
    var c := [Group(false, [], [Arr([]), Int(1)])];
    StepRefinesWorklist(c, EnterArray);
    assert Work(c) == [Arr([]), Int(1)] + Work([]);
    var c' := Step(c, EnterArray).value;
    assert Top(c') == Group(false, [], []);
  }

  // ---- Reading a whole document -----------------------------------------------------------------

  predicate NoEmptyContainer(v: Json) {
    v.IsContainer() ==> v.elems != [] && forall k :: 0 <= k < |v.elems| ==> NoEmptyContainer(v.elems[k])
  }

  function ReadOf(v: Json): Read {
    match v
    case Null => ReadNull
    case Bool(_) => ReadBoolean
    case Int(_) => ReadNumber
    case Real(_) => ReadNumber
    case Str(_) => ReadString
    case Arr(_) => EnterArray
    case Obj(_, _) => EnterObject
  }

  /** The reads of a document in writing order. */
  function Visit(v: Json): seq<Read>
    decreases v, 1
  {
    [ReadOf(v)] + if v.IsContainer() then VisitAll(v.elems) else []
  }

  function VisitAll(vs: seq<Json>): seq<Read>
    decreases vs, 0
  {
    if vs == [] then [] else Visit(vs[0]) + VisitAll(vs[1..])
  }

  lemma {:induction false} RunAppend(c: Position, a: seq<Read>, b: seq<Read>)
    ensures Run(c, a + b) == Run(Run(c, a), b)
    decreases a
  {
    hide Step;
    if a == [] {
      assert a + b == b;
    } else {
      assert (a + b)[1..] == a[1..] + b;
      RunAppend(match Step(c, a[0]) case None => c case Some(c') => c', a[1..], b);
    }
  }

  /** Visiting a document without empty containers reads all of it and nothing else. */
  lemma {:induction false} VisitReadsAll(c: Position, v: Json)
    requires Live(c) && Head(c) == Some(v) && NoEmptyContainer(v)
    ensures Run(c, Visit(v)) == Advance(c)
    decreases v, 1
  {
    hide Settle, VisitAll;
    var c' := Step(c, ReadOf(v)).value;
    assert Run(c, Visit(v)) == Run(c', Visit(v)[1..]);
    if v.IsContainer() {
      SettleTwice(Below(c) + [Top(c).Drop()]);
      assert Visit(v)[1..] == VisitAll(v.elems);
      StepKeepsLive(c, ReadOf(v));
      assert Top(c') == Inside(v) && Below(c') == Advance(c);
      VisitAllReads(c', v.elems);
    } else {
      assert Visit(v)[1..] == [];
      RunNothing(c');
    }
  }

  lemma {:induction false} SettleTwice(c: Position)
    ensures Settle(Settle(c)) == Settle(c)
  {
    if c != [] && Top(c).vals == [] {
      SettleTwice(Below(c));
    }
  }

  lemma {:induction false} VisitAllReads(c: Position, vs: seq<Json>)
    requires c != [] && Live(c) && vs != [] && Top(c).vals == vs
    requires forall k :: 0 <= k < |vs| ==> NoEmptyContainer(vs[k])
    ensures Run(c, VisitAll(vs)) == Settle(Below(c))
    decreases vs, 0
  {
    hide Visit, Run;
    VisitReadsAll(c, vs[0]);
    RunAppend(c, Visit(vs[0]), VisitAll(vs[1..]));
    var g := Top(c).Drop();
    var c' := Below(c) + [g];
    assert Below(c') == Below(c) && Top(c') == g;
    if vs[1..] == [] {
      RunNothing(Advance(c));
      assert Settle(c') == Settle(Below(c));
    } else {
      assert Settle(c') == c';
      VisitAllReads(c', vs[1..]);
    }
  }

  lemma RunNothing(c: Position)
    ensures Run(c, []) == c
  {
  }

  /** Any document without empty containers can be read from end to end. */
  lemma DocumentIsReadThrough(v: Json)
    requires NoEmptyContainer(v)
    ensures Run([Group(false, [], [v])], Visit(v)) == []
  {
    var c := [Group(false, [], [v])];
    VisitReadsAll(c, v);
    var c' := Below(c) + [Top(c).Drop()];
    assert c' == [Group(false, [], [])] && Below(c') == [];
    assert Settle(c') == [];
  }
}
