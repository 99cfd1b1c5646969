/** Reading a test scenario: three parsers that share one cursor, against the scenario its members describe. */
module ScenarioReader {
  import opened Chars
  import opened Numbers
  import opened Json
  import opened Grammar
  import opened Arena
  import opened Cursor
  import opened ParseHost
  import opened Members

  datatype Param = Param(name: string, value: int)

  datatype InputBus = InputBus(bus: nat, kind: string)

  datatype Scenario = Scenario(plugin: string, params: seq<Param>, buses: seq<InputBus>, duration: int)

  const DEFAULT := Scenario([], [], [], 64)

  /** What the reader knows from outside: the plug-in's parameter names and the number conversion. */
  datatype Env = Env(known: seq<CString>, realToInt: string -> int)

  // ---- What the members describe ----------------------------------------------------------------

  /** `parse_params` over the members of its object. */
  function ParamsOf(env: Env, names: seq<string>, elems: seq<Json>): Option<seq<Param>>
    requires |names| == |elems|
    decreases elems
  {
    if elems == [] then Some([])
    else
      match ParamOf(env, names[0], elems[0])
      case None => None
      case Some(ps) =>
        match ParamsOf(env, names[1..], elems[1..])
        case None => None
        case Some(rest) => Some(ps + rest)
  }

  function ParamOf(env: Env, name: string, v: Json): Option<seq<Param>> {
    if name !in env.known then Some([])
    else if IsNumber(v) then Some([Param(name, ToInt16(NumberOf(v, env.realToInt)))])
    else None
  }

  /** The bus from `from` to 64 whose decimal text is `name`. */
  function FindBus(name: string, from: nat): Option<nat>
    decreases 65 - from
  {
    if from > 64 then None else if IntText(from) == name then Some(from) else FindBus(name, from + 1)
  }

  function BusOf(name: string, v: Json): Option<seq<InputBus>> {
    match FindBus(name, 1)
    case None => Some([])
    case Some(bus) => if v.Str? then Some([InputBus(bus, CStr(v.s))]) else None
  }

  /** `parse_input_buses` over the members of its object. */
  function BusesOf(names: seq<string>, elems: seq<Json>): Option<seq<InputBus>>
    requires |names| == |elems|
    decreases elems
  {
    if elems == [] then Some([])
    else
      match BusOf(names[0], elems[0])
      case None => None
      case Some(bs) =>
        match BusesOf(names[1..], elems[1..])
        case None => None
        case Some(rest) => Some(bs + rest)
  }

  /** Exactly the names "1" to "64" name a bus. */
  lemma {:induction false} FindBusFinds(name: string, from: nat, bus: nat)
    requires 1 <= from <= 65
    ensures FindBus(name, from) == Some(bus) <==> from <= bus <= 64 && name == IntText(bus)
    decreases 65 - from
  {
    hide IntText;
    if from <= 64 {
      if from <= bus <= 64 {
        IntTextInjective(from, bus);
      }
      FindBusFinds(name, from + 1, bus);
    }
  }

  /** What one member of the scenario adds, none if it has the wrong shape. */
  function Take(env: Env, sc: Scenario, name: string, v: Json): Option<Scenario> {
    if name == "plugin" then if v.Str? then Some(sc.(plugin := CStr(v.s))) else None
    else if name == "params" then
      if !v.Obj? || |v.names| != |v.elems| then None
      else match ParamsOf(env, v.names, v.elems)
        case None => None
        case Some(ps) => Some(sc.(params := sc.params + ps))
    else if name == "input_buses" then
      if !v.Obj? || |v.names| != |v.elems| then None
      else match BusesOf(v.names, v.elems)
        case None => None
        case Some(bs) => Some(sc.(buses := sc.buses + bs))
    else if name == "duration_frames" then
      if IsNumber(v) then Some(sc.(duration := NumberOf(v, env.realToInt))) else None
    else Some(sc)
  }

  /** A member whose object is entered and left empty, so that the cursor stays in it. */
  predicate Stalls(name: string, v: Json) {
    name in {"params", "input_buses"} && v.Obj? && v.elems == []
  }

  /** `parse_scenario` over the members from a point on. */
  function ScenarioOf(env: Env, sc: Scenario, names: seq<string>, elems: seq<Json>): Option<Scenario>
    requires |names| == |elems|
    decreases elems
  {
    if elems == [] then Some(sc)
    else
      match Take(env, sc, names[0], elems[0])
      case None => None
      case Some(sc') =>
        if Stalls(names[0], elems[0]) && |elems| > 1 then None
        else ScenarioOf(env, sc', names[1..], elems[1..])
  }

  // ---- The readers ------------------------------------------------------------------------------

  /** The inner loop of `parse_params`: the parameter the next member names. */
  method MatchKnown(parse: JsonParse, known: seq<CString>) returns (found: bool, idx: nat)
    requires parse.Valid()
    ensures found ==> idx < |known| && NameIs(parse.View(), known[idx])
    ensures !found ==> forall p :: 0 <= p < |known| ==> !NameIs(parse.View(), known[p])
  {
    found, idx := false, 0;
    for p := 0 to |known|
      invariant forall q :: 0 <= q < p ==> !NameIs(parse.View(), known[q])
    {
      var here := parse.MatchName(known[p]);
      if here {
        return true, p;
      }
    }
  }

  /** What a nested reader leaves: the cursor behind the object it read. */
  ghost predicate ReadObject(c: Position, after: Position) {
    Head(c).Some? && Head(c).value.Obj? && |Head(c).value.names| == |Head(c).value.elems|
    && after == MemberPosition(Advance(c), Head(c).value.names, Head(c).value.elems, |Head(c).value.elems|)
  }

  method ParseParams(parse: JsonParse, env: Env) returns (ok: bool, params: seq<Param>)
    requires parse.Valid() && parse.realToInt == env.realToInt
    modifies parse
    ensures parse.Valid()
    ensures var h := Head(old(parse.View()));
      if h.None? || !h.value.Obj? then !ok
      else
        && |h.value.names| == |h.value.elems|
        && var r := ParamsOf(env, h.value.names, h.value.elems);
           ok == r.Some? && (ok ==> r == Some(params) && ReadObject(old(parse.View()), parse.View()))
  {
    hide ParamsOf, Advance, MemberPosition, Groups, FrameFits, ArenaFits;
    params := [];
    ghost var c := parse.View();
    HeadIsNamed(parse);
    var entered, num := parse.EnterContainer(true);
    if !entered {
      return false, params;
    }
    ghost var v, base := Head(c).value, Advance(c);
    EnterObjectPosition(c);
    ghost var full := ParamsOf(env, v.names, v.elems);
    assert v.names[0..] == v.names && v.elems[0..] == v.elems;
    PrependedNothing([], full);
    for i := 0 to num
      invariant parse.Valid() && num == |v.elems|
      invariant parse.View() == MemberPosition(base, v.names, v.elems, i)
      invariant full == Prepended(params, ParamsOf(env, v.names[i..], v.elems[i..]))
    {
      var ps;
      ok, ps := ParseParam(parse, env, base, v, i);
      ParamsUnfold(env, v.names, v.elems, i);
      if !ok {
        return false, params;
      }
      PrependedTwice(params, ps, ParamsOf(env, v.names[i + 1..], v.elems[i + 1..]));
      params := params + ps;
    }
    NoParams(env, v.names[num..], v.elems[num..], params);
    ok := true;
  }

  /** The body of the loop of `parse_params`. */
  method ParseParam(parse: JsonParse, env: Env, ghost base: Position, ghost v: Json, ghost i: nat)
      returns (ok: bool, ps: seq<Param>)
    requires parse.Valid() && parse.realToInt == env.realToInt
    requires v.Obj? && |v.names| == |v.elems| && i < |v.elems| && Settled(base)
    requires parse.View() == MemberPosition(base, v.names, v.elems, i)
    modifies parse
    ensures parse.Valid()
    ensures ok ==> ParamOf(env, v.names[i], v.elems[i]) == Some(ps)
                   && parse.View() == MemberPosition(base, v.names, v.elems, i + 1)
    ensures !ok ==> ParamOf(env, v.names[i], v.elems[i]) == None
  {
    hide Advance, MemberPosition, Groups, FrameFits, ArenaFits;
    MemberAt(base, v.names, v.elems, i);
    ps := [];
    var found, idx := MatchKnown(parse, env.known);
    if found {
      var n;
      ok, n := parse.Number();
      if ok {
        ps := [Param(env.known[idx], ToInt16(n))];
      }
    } else {
      ok := parse.SkipOneMember();
    }
  }

  /** The inner loop of `parse_input_buses`. */
  method MatchBus(parse: JsonParse, ghost name: string) returns (bus: Option<nat>)
    requires parse.Valid() && forall x :: NameIs(parse.View(), x) <==> name == x
    ensures bus == FindBus(name, 1)
  {
    hide IntText;
    for b: nat := 1 to 65
      invariant FindBus(name, 1) == FindBus(name, b)
    {
      var here := parse.MatchName(IntText(b));
      if here {
        return Some(b);
      }
    }
    bus := None;
  }

  method ParseInputBuses(parse: JsonParse) returns (ok: bool, buses: seq<InputBus>)
    requires parse.Valid()
    modifies parse
    ensures parse.Valid()
    ensures var h := Head(old(parse.View()));
      if h.None? || !h.value.Obj? then !ok
      else
        && |h.value.names| == |h.value.elems|
        && var r := BusesOf(h.value.names, h.value.elems);
           ok == r.Some? && (ok ==> r == Some(buses) && ReadObject(old(parse.View()), parse.View()))
  {
    hide BusesOf, Advance, MemberPosition, Groups, FrameFits, ArenaFits;
    buses := [];
    ghost var c := parse.View();
    HeadIsNamed(parse);
    var entered, num := parse.EnterContainer(true);
    if !entered {
      return false, buses;
    }
    ghost var v, base := Head(c).value, Advance(c);
    EnterObjectPosition(c);
    ghost var full := BusesOf(v.names, v.elems);
    assert v.names[0..] == v.names && v.elems[0..] == v.elems;
    PrependedNothing([], full);
    for i := 0 to num
      invariant parse.Valid() && num == |v.elems|
      invariant parse.View() == MemberPosition(base, v.names, v.elems, i)
      invariant full == Prepended(buses, BusesOf(v.names[i..], v.elems[i..]))
    {
      var bs;
      ok, bs := ParseInputBus(parse, base, v, i);
      BusesUnfold(v.names, v.elems, i);
      if !ok {
        return false, buses;
      }
      PrependedTwice(buses, bs, BusesOf(v.names[i + 1..], v.elems[i + 1..]));
      buses := buses + bs;
    }
    NoBuses(v.names[num..], v.elems[num..], buses);
    ok := true;
  }

  /** The body of the loop of `parse_input_buses`. */
  method ParseInputBus(parse: JsonParse, ghost base: Position, ghost v: Json, ghost i: nat)
      returns (ok: bool, bs: seq<InputBus>)
    requires parse.Valid()
    requires v.Obj? && |v.names| == |v.elems| && i < |v.elems| && Settled(base)
    requires parse.View() == MemberPosition(base, v.names, v.elems, i)
    modifies parse
    ensures parse.Valid()
    ensures ok ==> BusOf(v.names[i], v.elems[i]) == Some(bs)
                   && parse.View() == MemberPosition(base, v.names, v.elems, i + 1)
    ensures !ok ==> BusOf(v.names[i], v.elems[i]) == None
  {
    hide Advance, MemberPosition, FindBus, Groups, FrameFits, ArenaFits;
    MemberAt(base, v.names, v.elems, i);
    bs := [];
    var bus := MatchBus(parse, v.names[i]);
    if bus.Some? {
      var kind;
      ok, kind := parse.String();
      if ok {
        bs := [InputBus(bus.value, kind)];
      }
    } else {
      ok := parse.SkipOneMember();
    }
  }

  /** `parse_scenario` */
  method ParseScenario(parse: JsonParse, env: Env) returns (ok: bool, sc: Scenario)
    requires parse.Valid() && parse.realToInt == env.realToInt
    modifies parse
    ensures parse.Valid()
    ensures var h := Head(old(parse.View()));
      if h.None? || !h.value.Obj? then !ok
      else
        && |h.value.names| == |h.value.elems|
        && var r := ScenarioOf(env, DEFAULT, h.value.names, h.value.elems);
           ok == r.Some? && (ok ==> r == Some(sc) && Holds(env, Scenario("", [], [], 64), h.value.names, h.value.elems, sc))
  {
    hide ScenarioOf, Advance, MemberPosition, Take, Groups, FrameFits, ArenaFits;
    sc := DEFAULT;
    ghost var c := parse.View();
    HeadIsNamed(parse);
    var entered, num := parse.EnterContainer(true);
    if !entered {
      return false, sc;
    }
    ghost var v, base := Head(c).value, Advance(c);
    EnterObjectPosition(c);
    ghost var full := ScenarioOf(env, DEFAULT, v.names, v.elems);
    ghost var stalled := false;
    assert v.names[0..] == v.names && v.elems[0..] == v.elems;
    for i := 0 to num
      invariant parse.Valid() && num == |v.elems|
      invariant if stalled then
          0 < i && Stuck(parse.View()) && full == if i < num then None else Some(sc)
        else
          parse.View() == MemberPosition(base, v.names, v.elems, i)
          && full == ScenarioOf(env, sc, v.names[i..], v.elems[i..])
    {
      ScenarioUnfolds(env, sc, v.names, v.elems, i);
      ok, sc := ParseMember(parse, env, sc, base, v, i, stalled);
      if !ok {
        return false, sc;
      }
      stalled := Stalls(v.names[i], v.elems[i]);
      if i + 1 == num {
        NothingLeft(env, sc, v.names[num..], v.elems[num..]);
      }
    }
    NothingLeft(env, sc, v.names[num..], v.elems[num..]);
    ScenarioHoldsMembers(env, DEFAULT, v.names, v.elems);
    ok := true;
  }

  /** The cursor is inside an object it has nothing to read from. */
  ghost predicate Stuck(c: Position) {
    c != [] && Top(c) == Group(true, [], [])
  }

  lemma StuckFails(c: Position)
    requires Stuck(c)
    ensures (forall name :: !NameIs(c, name)) && Step(c, SkipMember).None?
  {
  }

  /** The body of the loop of `parse_scenario`, in front of member `i` or stuck behind an empty object: there no name
      matches and `skipMember` fails. */
  method ParseMember(parse: JsonParse, env: Env, sc: Scenario, ghost base: Position, ghost v: Json, ghost i: nat, ghost stuck: bool)
      returns (ok: bool, sc': Scenario)
    requires parse.Valid() && parse.realToInt == env.realToInt
    requires v.Obj? && |v.names| == |v.elems| && i < |v.elems| && Settled(base)
    requires if stuck then Stuck(parse.View()) else parse.View() == MemberPosition(base, v.names, v.elems, i)
    modifies parse
    ensures parse.Valid()
    ensures stuck ==> !ok
    ensures !stuck && !ok ==> Take(env, sc, v.names[i], v.elems[i]) == None
    ensures ok ==>
      && Take(env, sc, v.names[i], v.elems[i]) == Some(sc')
      && if Stalls(v.names[i], v.elems[i]) then Stuck(parse.View())
         else parse.View() == MemberPosition(base, v.names, v.elems, i + 1)
  {
    hide Advance, MemberPosition, ParamsOf, BusesOf, Groups, FrameFits, ArenaFits;
    sc' := sc;
    ghost var c := parse.View();
    if stuck {
      StuckFails(c);
    } else {
      MemberAt(base, v.names, v.elems, i);
      MemberPositionEnds(Advance(c), v.elems[i]);
    }
    var here := parse.MatchName("plugin");
    if here {
      var s;
      ok, s := parse.String();
      sc' := sc.(plugin := s);
      return;
    }
    here := parse.MatchName("params");
    if here {
      var ps;
      ok, ps := ParseParams(parse, env);
      sc' := sc.(params := sc.params + ps);
      return;
    }
    ok, sc' := ParseLaterMember(parse, env, sc, base, v, i, stuck);
  }

  /** The branches of that body for members that are neither `plugin` nor `params`. */
  method ParseLaterMember(parse: JsonParse, env: Env, sc: Scenario, ghost base: Position, ghost v: Json, ghost i: nat, ghost stuck: bool)
      returns (ok: bool, sc': Scenario)
    requires parse.Valid() && parse.realToInt == env.realToInt
    requires v.Obj? && |v.names| == |v.elems| && i < |v.elems| && Settled(base)
    requires if stuck then Stuck(parse.View()) else parse.View() == MemberPosition(base, v.names, v.elems, i)
    requires !stuck ==> v.names[i] != "plugin" && v.names[i] != "params"
    modifies parse
    ensures parse.Valid()
    ensures stuck ==> !ok
    ensures !stuck && !ok ==> Take(env, sc, v.names[i], v.elems[i]) == None
    ensures ok ==>
      && Take(env, sc, v.names[i], v.elems[i]) == Some(sc')
      && if Stalls(v.names[i], v.elems[i]) then Stuck(parse.View())
         else parse.View() == MemberPosition(base, v.names, v.elems, i + 1)
  {
    hide Advance, MemberPosition, ParamsOf, BusesOf, Groups, FrameFits, ArenaFits;
    sc' := sc;
    ghost var c := parse.View();
    if stuck {
      StuckFails(c);
    } else {
      MemberAt(base, v.names, v.elems, i);
      MemberPositionEnds(Advance(c), v.elems[i]);
    }
    var here := parse.MatchName("input_buses");
    if here {
      var bs;
      ok, bs := ParseInputBuses(parse);
      sc' := sc.(buses := sc.buses + bs);
      return;
    }
    here := parse.MatchName("duration_frames");
    if here {
      var n;
      ok, n := parse.Number();
      sc' := sc.(duration := n);
      return;
    }
    ok := parse.SkipOneMember();
  }

  lemma MemberPositionEnds(base: Position, v: Json)
    ensures v.Obj? && |v.names| == |v.elems| ==>
      var c := MemberPosition(base, v.names, v.elems, |v.elems|);
      if v.elems == [] then Stuck(c) else c == base
  {
  }

  // ---- Steps of the loops -----------------------------------------------------------------------

  lemma ScenarioUnfolds(env: Env, sc: Scenario, names: seq<string>, elems: seq<Json>, i: nat)
    requires |names| == |elems| && i < |elems|
    ensures ScenarioOf(env, sc, names[i..], elems[i..]) ==
      match Take(env, sc, names[i], elems[i])
      case None => None
      case Some(sc') =>
        if Stalls(names[i], elems[i]) && i + 1 < |elems| then None
        else ScenarioOf(env, sc', names[i + 1..], elems[i + 1..])
  {
    hide Take;
    assert names[i..][1..] == names[i + 1..] && elems[i..][1..] == elems[i + 1..];
  }

  lemma NothingLeft(env: Env, sc: Scenario, names: seq<string>, elems: seq<Json>)
    requires names == [] && elems == []
    ensures ScenarioOf(env, sc, names, elems) == Some(sc)
  {
  }

  function Prepended<T>(front: seq<T>, rest: Option<seq<T>>): Option<seq<T>> {
    match rest
    case None => None
    case Some(s) => Some(front + s)
  }

  lemma PrependedNothing<T>(front: seq<T>, rest: Option<seq<T>>)
    requires front == []
    ensures Prepended(front, rest) == rest
  {
    if rest.Some? {
      assert front + rest.value == rest.value;
    }
  }

  lemma PrependedTwice<T>(a: seq<T>, b: seq<T>, rest: Option<seq<T>>)
    ensures Prepended(a, Prepended(b, rest)) == Prepended(a + b, rest)
  {
    if rest.Some? {
      assert a + (b + rest.value) == a + b + rest.value;
    }
  }

  lemma ParamsUnfold(env: Env, names: seq<string>, elems: seq<Json>, i: nat)
    requires |names| == |elems| && i < |elems|
    ensures ParamsOf(env, names[i..], elems[i..]) ==
      match ParamOf(env, names[i], elems[i])
      case None => None
      case Some(ps) => Prepended(ps, ParamsOf(env, names[i + 1..], elems[i + 1..]))
  {
    assert names[i..][1..] == names[i + 1..] && elems[i..][1..] == elems[i + 1..];
  }

  lemma NoParams(env: Env, names: seq<string>, elems: seq<Json>, front: seq<Param>)
    requires names == [] && elems == []
    ensures Prepended(front, ParamsOf(env, names, elems)) == Some(front)
  {
    assert front + [] == front;
  }

  lemma BusesUnfold(names: seq<string>, elems: seq<Json>, i: nat)
    requires |names| == |elems| && i < |elems|
    ensures BusesOf(names[i..], elems[i..]) ==
      match BusOf(names[i], elems[i])
      case None => None
      case Some(bs) => Prepended(bs, BusesOf(names[i + 1..], elems[i + 1..]))
  {
    assert names[i..][1..] == names[i + 1..] && elems[i..][1..] == elems[i + 1..];
  }

  lemma NoBuses(names: seq<string>, elems: seq<Json>, front: seq<InputBus>)
    requires names == [] && elems == []
    ensures Prepended(front, BusesOf(names, elems)) == Some(front)
  {
    assert front + [] == front;
  }

  // ---- Order ------------------------------------------------------------------------------------

  /** The name of a bus: the decimal text of a number from 1 to 64. */
  predicate IsBusName(name: string) {
    exists bus :: 1 <= bus <= 64 && name == IntText(bus)
  }

  /** A member of the shape its name asks for. */
  predicate Acceptable(env: Env, name: string, v: Json) {
    && (name == "plugin" ==> v.Str?)
    && (name == "params" ==> v.Obj? && ParamsAreNumbers(env, v))
    && (name == "input_buses" ==> v.Obj? && BusesAreStrings(v))
    && (name == "duration_frames" ==> v.Int? || v.Real?)
  }

  predicate ParamsAreNumbers(env: Env, v: Json)
    requires v.Obj?
  {
    |v.names| == |v.elems| && forall k :: 0 <= k < |v.elems| && v.names[k] in env.known ==> v.elems[k].Int? || v.elems[k].Real?
  }

  predicate BusesAreStrings(v: Json)
    requires v.Obj?
  {
    |v.names| == |v.elems| && forall k :: 0 <= k < |v.elems| && IsBusName(v.names[k]) ==> v.elems[k].Str?
  }

  lemma {:induction false} ParamsReadIff(env: Env, names: seq<string>, elems: seq<Json>)
    requires |names| == |elems|
    ensures ParamsOf(env, names, elems).Some? <==> ParamsAreNumbers(env, Obj(names, elems))
    decreases elems
  {
    if elems != [] {
      ParamsReadIff(env, names[1..], elems[1..]);
      assert forall k :: 0 < k < |elems| ==> names[k] == names[1..][k - 1] && elems[k] == elems[1..][k - 1];
      assert forall k :: 0 <= k < |elems| - 1 ==> names[k + 1] == names[1..][k] && elems[k + 1] == elems[1..][k];
    }
  }

  lemma FindBusIff(name: string)
    ensures FindBus(name, 1).Some? <==> IsBusName(name)
  {
    hide IntText, FindBus;
    if FindBus(name, 1).Some? {
      FindBusFinds(name, 1, FindBus(name, 1).value);
    }
    if IsBusName(name) {
      var bus :| 1 <= bus <= 64 && name == IntText(bus);
      FindBusFinds(name, 1, bus);
    }
  }

  lemma {:induction false} BusesReadIff(names: seq<string>, elems: seq<Json>)
    requires |names| == |elems|
    ensures BusesOf(names, elems).Some? <==> BusesAreStrings(Obj(names, elems))
    decreases elems
  {
    hide FindBus, IsBusName;
    if elems != [] {
      FindBusIff(names[0]);
      BusesReadIff(names[1..], elems[1..]);
      assert forall k :: 0 < k < |elems| ==> names[k] == names[1..][k - 1] && elems[k] == elems[1..][k - 1];
      assert forall k :: 0 <= k < |elems| - 1 ==> names[k + 1] == names[1..][k] && elems[k + 1] == elems[1..][k];
    }
  }

  /** The reader takes a member exactly if it is acceptable, whatever it has read before. */
  lemma AcceptableAnywhere(env: Env, sc: Scenario, name: string, v: Json)
    ensures Take(env, sc, name, v).Some? <==> Acceptable(env, name, v)
  {
    hide ParamsOf, BusesOf, ParamsAreNumbers, BusesAreStrings;
    if v.Obj? && |v.names| == |v.elems| {
      ParamsReadIff(env, v.names, v.elems);
      BusesReadIff(v.names, v.elems);
    } else if v.Obj? {
      NotNamed(env, v);
    }
  }

  lemma NotNamed(env: Env, v: Json)
    requires v.Obj? && |v.names| != |v.elems|
    ensures !ParamsAreNumbers(env, v) && !BusesAreStrings(v)
  {
  }

  /** A scenario is read exactly when every member is acceptable and no empty `params` or `input_buses` object stands
      before another member. */
  lemma {:induction false} ScenarioIsReadIff(env: Env, sc: Scenario, names: seq<string>, elems: seq<Json>)
    requires |names| == |elems|
    ensures ScenarioOf(env, sc, names, elems).Some? <==>
      && (forall k :: 0 <= k < |elems| ==> Acceptable(env, names[k], elems[k]))
      && (forall k :: 0 <= k < |elems| - 1 ==> !Stalls(names[k], elems[k]))
    decreases elems
  {
    hide Take, Acceptable;
    if elems != [] {
      var names', elems' := names[1..], elems[1..];
      AcceptableAnywhere(env, sc, names[0], elems[0]);
      if Acceptable(env, names[0], elems[0]) {
        ScenarioIsReadIff(env, Take(env, sc, names[0], elems[0]).value, names', elems');
        assert forall k :: 0 < k < |elems| ==> names[k] == names'[k - 1] && elems[k] == elems'[k - 1];
        assert forall k :: 0 <= k < |elems'| ==> names[k + 1] == names'[k] && elems[k + 1] == elems'[k];
      }
    }
  }

  /** The same two members are read in one order and refused in the other. */
  lemma EmptyParamsBreakOrder(env: Env)
    ensures ScenarioOf(env, DEFAULT, ["duration_frames", "params"], [Int(1), Obj([], [])]).Some?
    ensures ScenarioOf(env, DEFAULT, ["params", "duration_frames"], [Obj([], []), Int(1)]).None?
  {
    ScenarioIsReadIff(env, DEFAULT, ["duration_frames", "params"], [Int(1), Obj([], [])]);
    ScenarioIsReadIff(env, DEFAULT, ["params", "duration_frames"], [Obj([], []), Int(1)]);
    assert Stalls(["params", "duration_frames"][0], [Obj([], []), Int(1)][0]);
  }

  /** The scenario with the members that can be looked up put in. */
  function Collected(env: Env, sc: Scenario, plugin: Option<Json>, params: Option<Json>, buses: Option<Json>, duration: Option<Json>): Option<Scenario> {
    match TakeIf(env, sc, "plugin", plugin)
    case None => None
    case Some(s1) =>
      match TakeIf(env, s1, "params", params)
      case None => None
      case Some(s2) =>
        match TakeIf(env, s2, "input_buses", buses)
        case None => None
        case Some(s3) => TakeIf(env, s3, "duration_frames", duration)
  }

  function TakeIf(env: Env, sc: Scenario, name: string, v: Option<Json>): Option<Scenario> {
    if v.None? then Some(sc) else Take(env, sc, name, v.value)
  }

  function CollectedFrom(env: Env, sc: Scenario, names: seq<string>, elems: seq<Json>): Option<Scenario>
    requires |names| == |elems|
  {
    Collected(env, sc, LastOf(names, elems, "plugin"), LastOf(names, elems, "params"),
              LastOf(names, elems, "input_buses"), LastOf(names, elems, "duration_frames"))
  }

  /** Members of different names can be taken in either order. */
  lemma CollectedTakesFirst(env: Env, sc: Scenario, name: string, v: Json,
                            plugin: Option<Json>, params: Option<Json>, buses: Option<Json>, duration: Option<Json>)
    requires Take(env, sc, name, v).Some?
    requires name == "plugin" ==> plugin.None?
    requires name == "params" ==> params.None?
    requires name == "input_buses" ==> buses.None?
    requires name == "duration_frames" ==> duration.None?
    ensures Collected(env, Take(env, sc, name, v).value, plugin, params, buses, duration)
         == Collected(env, sc, if name == "plugin" then Some(v) else plugin, if name == "params" then Some(v) else params,
                      if name == "input_buses" then Some(v) else buses, if name == "duration_frames" then Some(v) else duration)
  {
    hide ParamsOf, BusesOf;
  }

  /** Where no name is repeated and no nested object is empty, a scenario that is read is what looking its members up
      gives. */
  lemma {:induction false} ScenarioIsCollected(env: Env, sc: Scenario, names: seq<string>, elems: seq<Json>)
    requires |names| == |elems| && Distinct(names)
    requires forall k :: 0 <= k < |elems| ==> !Stalls(names[k], elems[k]) && Acceptable(env, names[k], elems[k])
    ensures ScenarioOf(env, sc, names, elems) == CollectedFrom(env, sc, names, elems)
    ensures ScenarioOf(env, sc, names, elems).Some?
    decreases elems
  {
    hide Take, Acceptable, Collected, LastOf, Stalls;
    if elems == [] {
      CollectNothing(env, sc, names, elems);
    } else {
      var name, v, names', elems' := names[0], elems[0], names[1..], elems[1..];
      AcceptableAnywhere(env, sc, name, v);
      assert !Stalls(names[0], elems[0]);
      forall k | 0 <= k < |elems'| ensures !Stalls(names'[k], elems'[k]) && Acceptable(env, names'[k], elems'[k]) {
        assert names'[k] == names[k + 1] && elems'[k] == elems[k + 1];
      }
      ScenarioIsCollected(env, Take(env, sc, name, v).value, names', elems');
      LastOfIsMember(names', elems', name);
      assert name !in names';
      LastOfCons(names, elems, "plugin");
      LastOfCons(names, elems, "params");
      LastOfCons(names, elems, "input_buses");
      LastOfCons(names, elems, "duration_frames");
      CollectedTakesFirst(env, sc, name, v, LastOf(names', elems', "plugin"), LastOf(names', elems', "params"),
                          LastOf(names', elems', "input_buses"), LastOf(names', elems', "duration_frames"));
    }
  }

  lemma CollectNothing(env: Env, sc: Scenario, names: seq<string>, elems: seq<Json>)
    requires names == [] && elems == []
    ensures CollectedFrom(env, sc, names, elems) == Some(sc)
  {
  }

  /** Any order of the same members gives the same scenario, where no name is repeated and no nested object is empty. */
  lemma ScenarioIgnoresOrder(env: Env, names: seq<string>, elems: seq<Json>, names': seq<string>, elems': seq<Json>)
    requires SameMembers(names, elems, names', elems') && Distinct(names) && Distinct(names')
    requires forall k :: 0 <= k < |elems| ==> !Stalls(names[k], elems[k])
    ensures ScenarioOf(env, DEFAULT, names, elems) == ScenarioOf(env, DEFAULT, names', elems')
  {
    hide Collected, Take, Acceptable, LastOf, Stalls;
    MembersKeep(env, names, elems, names', elems');
    MembersKeep(env, names', elems', names, elems);
    ScenarioIsReadIff(env, DEFAULT, names, elems);
    ScenarioIsReadIff(env, DEFAULT, names', elems');
    if ScenarioOf(env, DEFAULT, names, elems).Some? {
      ScenarioIsCollected(env, DEFAULT, names, elems);
      ScenarioIsCollected(env, DEFAULT, names', elems');
      LookupIgnoresOrder(names, elems, names', elems', "plugin");
      LookupIgnoresOrder(names, elems, names', elems', "params");
      LookupIgnoresOrder(names, elems, names', elems', "input_buses");
      LookupIgnoresOrder(names, elems, names', elems', "duration_frames");
    }
  }

  lemma MembersKeep(env: Env, names: seq<string>, elems: seq<Json>, names': seq<string>, elems': seq<Json>)
    requires SameMembers(names, elems, names', elems')
    ensures (forall k :: 0 <= k < |elems| ==> Acceptable(env, names[k], elems[k]))
        ==> (forall k :: 0 <= k < |elems'| ==> Acceptable(env, names'[k], elems'[k]))
    ensures (forall k :: 0 <= k < |elems| ==> !Stalls(names[k], elems[k]))
        ==> (forall k :: 0 <= k < |elems'| ==> !Stalls(names'[k], elems'[k]))
  {
    hide Acceptable, Stalls;
    forall k | 0 <= k < |elems'| ensures exists j :: 0 <= j < |elems| && (names'[k], elems'[k]) == (names[j], elems[j]) {
      assert Pairs(names', elems')[k] == (names'[k], elems'[k]);
      MemberIsIn(names', elems', names, elems, (names'[k], elems'[k]));
    }
  }

  /** A member the reader does not know changes nothing, wherever it stands and whatever it holds. */
  lemma {:induction false} UnknownMembersAreSkipped(env: Env, sc: Scenario, names: seq<string>, elems: seq<Json>, i: nat,
                                                    name: string, v: Json)
    requires |names| == |elems| && i <= |elems|
    requires name !in {"plugin", "params", "input_buses", "duration_frames"}
    requires forall k :: 0 <= k < |elems| ==> !Stalls(names[k], elems[k])
    ensures ScenarioOf(env, sc, names[..i] + [name] + names[i..], elems[..i] + [v] + elems[i..])
         == ScenarioOf(env, sc, names, elems)
    decreases i
  {
    var all, vals := names[..i] + [name] + names[i..], elems[..i] + [v] + elems[i..];
    if i == 0 {
      assert all[1..] == names && vals[1..] == elems;
      assert Take(env, sc, name, v) == Some(sc);
    } else {
      hide Take, Stalls;
      var names', elems' := names[1..], elems[1..];
      assert all[0] == names[0] && vals[0] == elems[0];
      assert all[1..] == names'[..i - 1] + [name] + names'[i - 1..];
      assert vals[1..] == elems'[..i - 1] + [v] + elems'[i - 1..];
      assert !Stalls(names[0], elems[0]);
      assert forall k :: 0 <= k < |elems'| ==> names'[k] == names[k + 1] && elems'[k] == elems[k + 1];
      match Take(env, sc, names[0], elems[0])
      case None =>
      case Some(sc') => UnknownMembersAreSkipped(env, sc', names', elems', i - 1, name, v);
    }
  }

  // ---- What a scenario holds --------------------------------------------------------------------

  /** One parameter for each member with a known name, in member order: its number cut to 16 bits. */
  function ParamsIn(env: Env, names: seq<string>, elems: seq<Json>): seq<Param>
    requires |names| == |elems|
    decreases elems
  {
    if elems == [] then []
    else
      (if names[0] !in env.known then []
       else match elems[0]
         case Int(n) => [Param(names[0], ToInt16(n))]
         case Real(tok) => [Param(names[0], ToInt16(env.realToInt(tok)))]
         case _ => [])
      + ParamsIn(env, names[1..], elems[1..])
  }

  /** One bus for each member whose name is a bus number, in member order: its number and its text. */
  function BusesIn(names: seq<string>, elems: seq<Json>): seq<InputBus>
    requires |names| == |elems|
    decreases elems
  {
    if elems == [] then []
    else
      (if FindBus(names[0], 1).Some? && elems[0].Str? then [InputBus(FindBus(names[0], 1).value, CStr(elems[0].s))] else [])
      + BusesIn(names[1..], elems[1..])
  }

  function FirstOfParams(env: Env, name: string, v: Json): seq<Param> {
    if name == "params" && v.Obj? && |v.names| == |v.elems| then ParamsIn(env, v.names, v.elems) else []
  }

  function FirstOfBuses(name: string, v: Json): seq<InputBus> {
    if name == "input_buses" && v.Obj? && |v.names| == |v.elems| then BusesIn(v.names, v.elems) else []
  }

  /** The parameters of every `params` object, in order. */
  function AllParams(env: Env, names: seq<string>, elems: seq<Json>): seq<Param>
    requires |names| == |elems|
    decreases elems
  {
    if elems == [] then []
    else FirstOfParams(env, names[0], elems[0]) + AllParams(env, names[1..], elems[1..])
  }

  /** The buses of every `input_buses` object, in order. */
  function AllBuses(names: seq<string>, elems: seq<Json>): seq<InputBus>
    requires |names| == |elems|
    decreases elems
  {
    if elems == [] then []
    else FirstOfBuses(names[0], elems[0]) + AllBuses(names[1..], elems[1..])
  }

  lemma {:induction false} ParamsAreAll(env: Env, names: seq<string>, elems: seq<Json>)
    requires |names| == |elems| && ParamsOf(env, names, elems).Some?
    ensures ParamsOf(env, names, elems).value == ParamsIn(env, names, elems)
    decreases elems
  {
    hide ToInt16;
    if elems != [] {
      ParamsAreAll(env, names[1..], elems[1..]);
    }
  }

  lemma {:induction false} BusesAreAll(names: seq<string>, elems: seq<Json>)
    requires |names| == |elems| && BusesOf(names, elems).Some?
    ensures BusesOf(names, elems).value == BusesIn(names, elems)
    decreases elems
  {
    hide FindBus;
    if elems != [] {
      BusesAreAll(names[1..], elems[1..]);
    }
  }

  /** The scenario holds what the members say: the last plug-in name and the last duration, where there is one, and all
      parameters and buses, behind what was there before. */
  predicate Holds(env: Env, before: Scenario, names: seq<string>, elems: seq<Json>, sc: Scenario)
    requires |names| == |elems|
  {
    && (match LastOf(names, elems, "plugin")
        case None => sc.plugin == before.plugin
        case Some(v) => v.Str? && sc.plugin == CStr(v.s))
    && (match LastOf(names, elems, "duration_frames")
        case None => sc.duration == before.duration
        case Some(Int(n)) => sc.duration == n
        case Some(Real(tok)) => sc.duration == env.realToInt(tok)
        case Some(_) => false)
    && sc.params == before.params + AllParams(env, names, elems)
    && sc.buses == before.buses + AllBuses(names, elems)
  }

  /** Whatever scenario is read, it holds what its members say. */
  lemma {:induction false} ScenarioHoldsMembers(env: Env, before: Scenario, names: seq<string>, elems: seq<Json>)
    requires |names| == |elems| && ScenarioOf(env, before, names, elems).Some?
    ensures Holds(env, before, names, elems, ScenarioOf(env, before, names, elems).value)
    decreases elems
  {
    hide Take, LastOf, AllParams, AllBuses;
    if elems == [] {
      NothingHeld(env, before, names, elems);
    } else {
      var sc := Take(env, before, names[0], elems[0]).value;
      ScenarioHoldsMembers(env, sc, names[1..], elems[1..]);
      OneMore(env, before, names, elems);
      LastOfCons(names, elems, "plugin");
      LastOfCons(names, elems, "duration_frames");
      var r := ScenarioOf(env, before, names, elems).value;
      FirstParams(env, names, elems);
      FirstBuses(names, elems);
      var ps, bs := FirstOfParams(env, names[0], elems[0]), FirstOfBuses(names[0], elems[0]);
      assert before.params + ps + AllParams(env, names[1..], elems[1..]) == before.params + (ps + AllParams(env, names[1..], elems[1..]));
      assert before.buses + bs + AllBuses(names[1..], elems[1..]) == before.buses + (bs + AllBuses(names[1..], elems[1..]));
    }
  }

  lemma FirstParams(env: Env, names: seq<string>, elems: seq<Json>)
    requires |names| == |elems| && elems != []
    ensures AllParams(env, names, elems) == FirstOfParams(env, names[0], elems[0]) + AllParams(env, names[1..], elems[1..])
  {
  }

  lemma FirstBuses(names: seq<string>, elems: seq<Json>)
    requires |names| == |elems| && elems != []
    ensures AllBuses(names, elems) == FirstOfBuses(names[0], elems[0]) + AllBuses(names[1..], elems[1..])
  {
  }

  lemma NothingHeld(env: Env, before: Scenario, names: seq<string>, elems: seq<Json>)
    requires names == [] && elems == []
    ensures Holds(env, before, names, elems, before)
  {
  }

  /** What taking one member changes. */
  lemma OneMore(env: Env, before: Scenario, names: seq<string>, elems: seq<Json>)
    requires |names| == |elems| && elems != [] && Take(env, before, names[0], elems[0]).Some?
    ensures var sc, v := Take(env, before, names[0], elems[0]).value, elems[0];
      && (if names[0] == "plugin" then v.Str? && sc.plugin == CStr(v.s) else sc.plugin == before.plugin)
      && (if names[0] == "duration_frames" then
            match v
            case Int(n) => sc.duration == n
            case Real(tok) => sc.duration == env.realToInt(tok)
            case _ => false
          else sc.duration == before.duration)
      && sc.params == before.params + FirstOfParams(env, names[0], v)
      && sc.buses == before.buses + FirstOfBuses(names[0], v)
  {
    hide ParamsOf, BusesOf, ParamsIn, BusesIn;
    var v := elems[0];
    if names[0] == "params" {
      ParamsAreAll(env, v.names, v.elems);
    }
    if names[0] == "input_buses" {
      BusesAreAll(v.names, v.elems);
    }
    assert before.params + [] == before.params && before.buses + [] == before.buses;
  }

  // ---- From text --------------------------------------------------------------------------------

  /** The scenario a text describes: that of the members of its object. */
  function ScenarioOfText(env: Env, json: string): Option<Scenario> {
    match ParseValue(json)
    case NoValue => None
    case Parsed(v, _) =>
      if v.Obj? && |v.names| == |v.elems| then ScenarioOf(env, DEFAULT, v.names, v.elems) else None
  }

  /** The scenario holds what the members of the text's object say, from an empty scenario of 64 frames on. */
  predicate HoldsText(env: Env, json: string, sc: Scenario) {
    match ParseValue(json)
    case Parsed(Obj(names, elems), _) => |names| == |elems| && Holds(env, Scenario("", [], [], 64), names, elems, sc)
    case _ => false
  }

  /** What the harness does with the text it is given: builds the parse host and reads the scenario. */
  method LoadScenario(json: string, env: Env) returns (ok: bool, sc: Scenario)
    ensures ok <==> ScenarioOfText(env, json).Some?
    ensures ok ==> ScenarioOfText(env, json) == Some(sc)
    ensures ok ==> HoldsText(env, json, sc)
  {
    hide ParseValue, ScenarioOf, Tree, Flatten;
    var parse := new JsonParse(json, env.realToInt);
    ok, sc := ParseScenario(parse, env);
  }

  /** Neither the whitespace of a text nor the order of its members shows in the scenario read from it. */
  lemma LayoutAndOrderDoNotShow(env: Env, names: seq<string>, elems: seq<Json>, names': seq<string>, elems': seq<Json>,
                                gap: nat -> string, t: string)
    requires SameMembers(names, elems, names', elems') && Distinct(names) && Distinct(names')
    requires forall k :: 0 <= k < |elems| ==> Canonical(elems[k]) && !Stalls(names[k], elems[k])
    requires AllGapsSpace(gap) && Delimited(t)
    ensures ScenarioOfText(env, Weave(Tokens(Obj(names', elems')), gap, 0) + t) == ScenarioOf(env, DEFAULT, names, elems)
  {
    hide ScenarioOf, Stalls, ParseValue, Weave, Tokens;
    forall k | 0 <= k < |elems'| ensures Canonical(elems'[k]) {
      assert Pairs(names', elems')[k] == (names'[k], elems'[k]);
      MemberIsIn(names', elems', names, elems, (names'[k], elems'[k]));
    }
    ItemsAreCanonical(true, names', elems');
    ParseWeave(Obj(names', elems'), gap, 0, t);
    ScenarioIgnoresOrder(env, names, elems, names', elems');
  }
}
