/** Saving and restoring an applet's 64-bit state through two 32-bit members of a JSON object. */
module AppletState {
  import opened Chars
  import opened Strings
  import opened Json
  import opened Grammar
  import opened Arena
  import opened Cursor
  import opened ParseHost
  import opened Members
  import opened Writer
  import opened RoundTrip

  const HI: CString := "hemi_hi"
  const LO: CString := "hemi_lo"

  const TWO_64: int := 0x1_0000_0000_0000_0000

  /** `(int)(uint32_t)(state >> 32)` */
  function HighWord(state: nat): (r: int)
    ensures IsInt32(r)
  {
    ToInt32(state / TWO_32 % TWO_32)
  }

  /** `(int)(uint32_t)(state & 0xFFFFFFFFu)` */
  function LowWord(state: nat): (r: int)
    ensures IsInt32(r)
  {
    ToInt32(state % TWO_32)
  }

  /** `((uint64_t)(uint32_t)hi << 32) | (uint64_t)(uint32_t)lo` */
  function Join(hi: int, lo: int): (r: nat)
    ensures r < TWO_64
  {
    ToUint32(hi) * TWO_32 + ToUint32(lo)
  }

  /** The two words carry the whole state. */
  lemma JoinInvertsSplit(state: nat)
    requires state < TWO_64
    ensures Join(HighWord(state), LowWord(state)) == state
  {
    WordReadsBack(state / TWO_32);
    WordReadsBack(state % TWO_32);
    hide ToInt32, ToUint32;
  }

  /** The words are the high and the low half, as they are written and as they are put together. */
  lemma WordsAreHalves(state: nat, hi: int, lo: int)
    requires state < TWO_64
    ensures ToUint32(HighWord(state)) * 0x1_0000_0000 + ToUint32(LowWord(state)) == state
    ensures Join(hi, lo) / 0x1_0000_0000 == ToUint32(hi) && Join(hi, lo) % 0x1_0000_0000 == ToUint32(lo)
  {
    WordReadsBack(state / TWO_32);
    WordReadsBack(state % TWO_32);
  }

  // ---- Saving -----------------------------------------------------------------------------------

  /** The members `write_data_request` writes. */
  function StateNames(): seq<string> {
    [HI, LO]
  }

  function StateValues(state: nat): seq<Json> {
    [Int(HighWord(state)), Int(LowWord(state))]
  }

  method WriteDataRequest(state: nat, stream: JsonStream, ghost d: Doc)
    requires state < TWO_64 && Writes(stream, d) && NameReady(d)
    modifies stream
    ensures Writes(stream, Filled(Root(d), StateNames(), StateValues(state)))
  {
    hide Shows, Filled, Root, HighWord, LowWord, IsInt32;
    WriteMember(stream, HI, Int(HighWord(state)), d);
    RootFacts(d);
    FilledIsNameReady(Root(d), [HI], [Int(HighWord(state))]);
    WriteMember(stream, LO, Int(LowWord(state)), Filled(Root(d), [HI], [Int(HighWord(state))]));
    FilledTwice(Root(d), [HI], [Int(HighWord(state))], [LO], [Int(LowWord(state))]);
    assert [HI] + [LO] == StateNames();
    assert [Int(HighWord(state))] + [Int(LowWord(state))] == StateValues(state);
  }

  /** The text of a saved state. */
  lemma SavedText(state: nat)
    ensures Text(Obj(StateNames(), StateValues(state)))
         == "{" + Quote("hemi_hi") + ":" + IntText(HighWord(state)) + "," + Quote("hemi_lo") + ":" + IntText(LowWord(state)) + "}"
  {
    hide HighWord, LowWord, IntText, Quote, Concat, Tokens;
    var h, l := IntText(HighWord(state)), IntText(LowWord(state));
    StateTokens(HI, HighWord(state), LO, LowWord(state));
    var toks := ["{"] + [Quote(HI)] + [":"] + [h] + [","] + [Quote(LO)] + [":"] + [l] + ["}"];
    assert toks == Tokens(Obj(StateNames(), StateValues(state)));
    ConcatSnoc([], "{");
    assert [] + ["{"] == ["{"];
    NoText();
    ConcatSnoc(["{"], Quote(HI));
    ConcatSnoc(["{"] + [Quote(HI)], ":");
    ConcatSnoc(["{"] + [Quote(HI)] + [":"], h);
    ConcatSnoc(["{"] + [Quote(HI)] + [":"] + [h], ",");
    ConcatSnoc(["{"] + [Quote(HI)] + [":"] + [h] + [","], Quote(LO));
    ConcatSnoc(["{"] + [Quote(HI)] + [":"] + [h] + [","] + [Quote(LO)], ":");
    ConcatSnoc(["{"] + [Quote(HI)] + [":"] + [h] + [","] + [Quote(LO)] + [":"], l);
    ConcatSnoc(["{"] + [Quote(HI)] + [":"] + [h] + [","] + [Quote(LO)] + [":"] + [l], "}");
  }

  lemma NoText()
    ensures Concat([]) == []
  {
  }

  lemma StateTokens(a: string, m: int, b: string, n: int)
    ensures Tokens(Obj([a, b], [Int(m), Int(n)]))
         == ["{"] + [Quote(a)] + [":"] + [IntText(m)] + [","] + [Quote(b)] + [":"] + [IntText(n)] + ["}"]
  {
    hide Quote, IntText, Item;
    IntItem(a, m);
    IntItem(b, n);
    var items := ItemList(true, [a, b], [Int(m), Int(n)]);
    assert items[0] == Item(true, a, Int(m)) && items[1] == Item(true, b, Int(n));
    assert items[1..][0] == items[1] && items[1..][1..] == [];
    assert Joined(false, items[1..]) == [","] + items[1] + [];
    assert Joined(true, items) == [] + items[0] + Joined(false, items[1..]);
  }

  lemma IntItem(name: string, n: int)
    ensures Item(true, name, Int(n)) == [Quote(name)] + [":"] + [IntText(n)]
  {
    hide Quote, IntText;
  }

  // ---- Restoring --------------------------------------------------------------------------------

  datatype Received = Rejected | Received(hi: Option<int>, lo: Option<int>)
  {
    /** The state handed to the applet: only when both halves were there. */
    function Delivered(): Option<nat> {
      if Received? && hi.Some? && lo.Some? then Some(Join(hi.value, lo.value)) else None
    }
  }

  /** What `read_data_receive` makes of the members from a point on. */
  function Receive(names: seq<string>, elems: seq<Json>, realToInt: string -> int, hi: Option<int>, lo: Option<int>): Received
    requires |names| == |elems|
    decreases elems
  {
    if elems == [] then Received(hi, lo)
    else if names[0] == HI then
      if IsNumber(elems[0]) then Receive(names[1..], elems[1..], realToInt, Some(NumberOf(elems[0], realToInt)), lo) else Rejected
    else if names[0] == LO then
      if IsNumber(elems[0]) then Receive(names[1..], elems[1..], realToInt, hi, Some(NumberOf(elems[0], realToInt))) else Rejected
    else Receive(names[1..], elems[1..], realToInt, hi, lo)
  }

  method ReadDataReceive(parse: JsonParse) returns (ok: bool, delivered: Option<nat>)
    requires parse.Valid()
    modifies parse
    ensures parse.Valid()
    ensures var h := Head(old(parse.View()));
      if h.None? || !h.value.Obj? then !ok && delivered == None
      else
        && |h.value.names| == |h.value.elems|
        && var r := Receive(h.value.names, h.value.elems, parse.realToInt, None, None);
           ok == r.Received? && delivered == r.Delivered()
  {
    hide Receive, Advance, MemberPosition, Groups, FrameFits, ArenaFits;
    delivered := None;
    ghost var c := parse.View();
    HeadIsNamed(parse);
    var entered, num := parse.EnterContainer(true);
    if !entered {
      return false, None;
    }
    ghost var v, base := Head(c).value, Advance(c);
    EnterObjectPosition(c);
    var hi, lo := 0, 0;
    var gotHi, gotLo := false, false;
    ghost var full := Receive(v.names, v.elems, parse.realToInt, None, None);
    assert v.names[0..] == v.names && v.elems[0..] == v.elems;
    for i := 0 to num
      invariant parse.Valid() && num == |v.elems|
      invariant parse.View() == MemberPosition(base, v.names, v.elems, i)
      invariant full == Receive(v.names[i..], v.elems[i..], parse.realToInt, Got(gotHi, hi), Got(gotLo, lo))
    {
      ok, gotHi, hi, gotLo, lo := ReadStateMember(parse, gotHi, hi, gotLo, lo, base, v, i);
      if !ok {
        return false, None;
      }
    }
    ReceivedAll(v.names[num..], v.elems[num..], parse.realToInt, Got(gotHi, hi), Got(gotLo, lo));
    if gotHi && gotLo {
      delivered := Some(Join(hi, lo));
    }
    ok := true;
  }

  /** The body of the loop: reads or skips member `i` of the object `v`. */
  method ReadStateMember(parse: JsonParse, gotHi: bool, hi: int, gotLo: bool, lo: int, ghost base: Position, ghost v: Json, ghost i: nat)
      returns (ok: bool, gotHi': bool, hi': int, gotLo': bool, lo': int)
    requires parse.Valid() && v.Obj? && |v.names| == |v.elems| && i < |v.elems| && Settled(base)
    requires parse.View() == MemberPosition(base, v.names, v.elems, i)
    modifies parse
    ensures parse.Valid()
    ensures var r := Receive(v.names[i..], v.elems[i..], parse.realToInt, Got(gotHi, hi), Got(gotLo, lo));
      if ok then
        && parse.View() == MemberPosition(base, v.names, v.elems, i + 1)
        && r == Receive(v.names[i + 1..], v.elems[i + 1..], parse.realToInt, Got(gotHi', hi'), Got(gotLo', lo'))
      else r.Rejected?
  {
    hide Receive, Advance, MemberPosition, Groups, FrameFits, ArenaFits;
    gotHi', hi', gotLo', lo' := gotHi, hi, gotLo, lo;
    MemberAt(base, v.names, v.elems, i);
    ReceiveUnfolds(v.names, v.elems, i, parse.realToInt, Got(gotHi, hi), Got(gotLo, lo));
    var isHi := parse.MatchName(HI);
    if isHi {
      ok, hi' := parse.Number();
      gotHi' := true;
      return;
    }
    var isLo := parse.MatchName(LO);
    if isLo {
      ok, lo' := parse.Number();
      gotLo' := true;
    } else {
      ok := parse.SkipOneMember();
    }
  }

  function Got(got: bool, n: int): Option<int> {
    if got then Some(n) else None
  }

  lemma ReceivedAll(names: seq<string>, elems: seq<Json>, realToInt: string -> int, hi: Option<int>, lo: Option<int>)
    requires names == [] && elems == []
    ensures Receive(names, elems, realToInt, hi, lo) == Received(hi, lo)
  {
  }

  lemma ReceiveUnfolds(names: seq<string>, elems: seq<Json>, i: nat, realToInt: string -> int, hi: Option<int>, lo: Option<int>)
    requires |names| == |elems| && i < |elems|
    ensures Receive(names[i..], elems[i..], realToInt, hi, lo) ==
      if names[i] == HI then
        if IsNumber(elems[i]) then Receive(names[i + 1..], elems[i + 1..], realToInt, Some(NumberOf(elems[i], realToInt)), lo) else Rejected
      else if names[i] == LO then
        if IsNumber(elems[i]) then Receive(names[i + 1..], elems[i + 1..], realToInt, hi, Some(NumberOf(elems[i], realToInt))) else Rejected
      else Receive(names[i + 1..], elems[i + 1..], realToInt, hi, lo)
  {
    assert names[i..][1..] == names[i + 1..] && elems[i..][1..] == elems[i + 1..];
  }

  // ---- What survives ----------------------------------------------------------------------------

  predicate IsStateName(name: string) {
    name == HI || name == LO
  }

  function NumberIn(v: Option<Json>, realToInt: string -> int, otherwise: Option<int>): Option<int>
    requires v.Some? ==> IsNumber(v.value)
  {
    if v.Some? then Some(NumberOf(v.value, realToInt)) else otherwise
  }

  /** Restoring fails exactly when a state member is no number, and otherwise takes the last value under each name. */
  lemma {:induction false} ReceiveTakesLast(names: seq<string>, elems: seq<Json>, realToInt: string -> int, hi: Option<int>, lo: Option<int>)
    requires |names| == |elems|
    ensures Receive(names, elems, realToInt, hi, lo).Received? <==> NumbersUnder(IsStateName, names, elems)
    ensures NumbersUnder(IsStateName, names, elems) ==>
      && (LastOf(names, elems, HI).Some? ==> IsNumber(LastOf(names, elems, HI).value))
      && (LastOf(names, elems, LO).Some? ==> IsNumber(LastOf(names, elems, LO).value))
      && Receive(names, elems, realToInt, hi, lo)
         == Received(NumberIn(LastOf(names, elems, HI), realToInt, hi), NumberIn(LastOf(names, elems, LO), realToInt, lo))
    decreases elems
  {
    hide LastOf;
    if NumbersUnder(IsStateName, names, elems) {
      LastIsNumber(IsStateName, names, elems, HI);
      LastIsNumber(IsStateName, names, elems, LO);
    }
    if elems == [] {
      NoLastOf(HI);
      NoLastOf(LO);
    } else {
      LastOfCons(names, elems, HI);
      LastOfCons(names, elems, LO);
      NumbersInTail(IsStateName, names, elems);
      if IsNumber(elems[0]) || !IsStateName(names[0]) {
        var n := if IsNumber(elems[0]) then Some(NumberOf(elems[0], realToInt)) else None;
        ReceiveTakesLast(names[1..], elems[1..], realToInt, if names[0] == HI then n else hi, if names[0] == LO then n else lo);
      }
    }
  }

  /** A state is delivered exactly if both members are there and every one of either name is a number, and then it is put
      together from the last of each. */
  lemma DeliveredIff(names: seq<string>, elems: seq<Json>, realToInt: string -> int)
    requires |names| == |elems|
    ensures var r, hi, lo := Receive(names, elems, realToInt, None, None).Delivered(), LastOf(names, elems, "hemi_hi"), LastOf(names, elems, "hemi_lo");
      && (r.Some? <==> hi.Some? && lo.Some? && forall k :: 0 <= k < |elems| && names[k] in ["hemi_hi", "hemi_lo"] ==> IsNumber(elems[k]))
      && (r.Some? ==> IsNumber(hi.value) && IsNumber(lo.value)
                      && r.value / 0x1_0000_0000 == ToUint32(NumberOf(hi.value, realToInt))
                      && r.value % 0x1_0000_0000 == ToUint32(NumberOf(lo.value, realToInt)))
  {
    hide Receive, LastOf, Join;
    ReceiveTakesLast(names, elems, realToInt, None, None);
    var hi, lo := LastOf(names, elems, HI), LastOf(names, elems, LO);
    assert forall name :: name in ["hemi_hi", "hemi_lo"] <==> IsStateName(name);
    if NumbersUnder(IsStateName, names, elems) && hi.Some? && lo.Some? {
      WordsAreHalves(0, NumberOf(hi.value, realToInt), NumberOf(lo.value, realToInt));
    }
  }

  /** The two members of a saved state, anywhere among others and in either order, restore exactly that state. */
  lemma StateIsRestored(names: seq<string>, elems: seq<Json>, i: nat, j: nat, state: nat, realToInt: string -> int)
    requires |names| == |elems| && i < |elems| && j < |elems| && state < TWO_64
    requires forall k :: 0 <= k < |names| ==> (names[k] == HI <==> k == i) && (names[k] == LO <==> k == j)
    requires elems[i] == Int(HighWord(state)) && elems[j] == Int(LowWord(state))
    ensures Receive(names, elems, realToInt, None, None) == Received(Some(HighWord(state)), Some(LowWord(state)))
    ensures Receive(names, elems, realToInt, None, None).Delivered() == Some(state)
  {
    hide HighWord, LowWord, Join, Receive, LastOf;
    LastOfAt(names, elems, HI, i);
    LastOfAt(names, elems, LO, j);
    ReceiveTakesLast(names, elems, realToInt, None, None);
    JoinInvertsSplit(state);
  }

  /** Saves a state among other members, the way a host does: members before, the applet's request, members after,
      and `buffer()` to close the root object nobody opened. */
  method Save(state: nat, namesBefore: seq<string>, before: seq<Json>, namesAfter: seq<string>, after: seq<Json>)
      returns (text: string)
    requires state < TWO_64
    requires AllWritable(namesBefore, before) && AllWritable(namesAfter, after)
    ensures text == Text(Obj(namesBefore + StateNames() + namesAfter, before + StateValues(state) + after))
  {
    hide Shows, Writable, Filled, Root, Text, HighWord, LowWord, BufferState;
    var stream := new JsonStream();
    InitialShows();
    WriteMembers(stream, namesBefore, before, EMPTY);
    ghost var root := Root(EMPTY);
    RootFacts(EMPTY);
    ghost var d1 := if before == [] then EMPTY else Filled(root, namesBefore, before);
    RootOfFilled(namesBefore, before);
    WriteDataRequest(state, stream, d1);
    ghost var names, elems := namesBefore + StateNames(), before + StateValues(state);
    FilledTwice(root, namesBefore, before, StateNames(), StateValues(state));
    FilledIsNameReady(root, names, elems);
    WriteMembers(stream, namesAfter, after, Filled(root, names, elems));
    FilledTwice(root, names, elems, namesAfter, after);
    FilledWithNothing(Filled(root, names, elems));
    AutoRootText(stream.State(), names + namesAfter, elems + after);
    text := stream.Buffer();
  }

  lemma StateMembersAreWritable(state: nat)
    ensures AllWritable(StateNames(), StateValues(state))
  {
    hide HighWord, LowWord, IsInt32;
  }

  /** A state that was saved among other members is restored from the text, whatever those members hold. */
  method SaveAndRestore(state: nat, namesBefore: seq<string>, before: seq<Json>, namesAfter: seq<string>, after: seq<Json>,
                        strtod: string -> int)
      returns (ok: bool, delivered: Option<nat>)
    requires state < TWO_64
    requires AllWritable(namesBefore, before) && AllWritable(namesAfter, after)
    requires forall k :: 0 <= k < |namesBefore| ==> !IsStateName(namesBefore[k])
    requires forall k :: 0 <= k < |namesAfter| ==> !IsStateName(namesAfter[k])
    ensures ok && delivered == Some(state)
  {
    hide Wf, Writable, Text, HighWord, LowWord, Receive, ParseValue, Flatten;
    var text := Save(state, namesBefore, before, namesAfter, after);
    ghost var names, elems := namesBefore + StateNames() + namesAfter, before + StateValues(state) + after;
    StateMembersAreWritable(state);
    DocumentIsWf(namesBefore, before, StateNames(), StateValues(state), namesAfter, after);
    ParseInvertsText(Obj(names, elems), []);
    assert text + [] == text;
    var parse := new JsonParse(text, strtod);
    ok, delivered := ReadDataReceive(parse);
    IntIsRead(elems, |before|);
    IntIsRead(elems, |before| + 1);
    StateIsRestored(names, AllAsRead(elems), |before|, |before| + 1, state, strtod);
  }

  /** An object that holds a saved state in any two members, written by the stream and read back, restores it. */
  method RestoreAnywhere(names: seq<string>, elems: seq<Json>, ghost i: nat, ghost j: nat, ghost state: nat, strtod: string -> int)
      returns (ok: bool, delivered: Option<nat>)
    requires AllWritable(names, elems) && i < |elems| && j < |elems| && state < TWO_64
    requires forall k :: 0 <= k < |names| ==> (names[k] == HI <==> k == i) && (names[k] == LO <==> k == j)
    requires elems[i] == Int(HighWord(state)) && elems[j] == Int(LowWord(state))
    ensures ok && delivered == Some(state)
  {
    hide Receive, HighWord, LowWord, Tree, Flatten, Text;
    var text, parse := WriteAndParse(Obj(names, elems), strtod);
    ok, delivered := ReadDataReceive(parse);
    IntIsRead(elems, i);
    IntIsRead(elems, j);
    StateIsRestored(names, AllAsRead(elems), i, j, state, strtod);
  }
}
