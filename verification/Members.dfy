/** Reading the members of one object in order, as every client of the parse host does. */
module Members {
  import opened Json
  import opened Chars
  import opened Cursor

  /** The cursor in front of member `i` of an object that was entered from a settled position. */
  function MemberPosition(base: Position, names: seq<string>, elems: seq<Json>, i: nat): Position
    requires |names| == |elems| && i <= |elems|
  {
    if 0 < i == |elems| then base else base + [Group(true, names[i..], elems[i..])]
  }

  /** No exhausted container is on top. */
  predicate Settled(c: Position) {
    c == [] || Top(c).vals != []
  }

  lemma {:induction false} SettleSettles(c: Position)
    ensures Settled(Settle(c))
    ensures Settled(c) ==> Settle(c) == c
  {
    if c != [] && Top(c).vals == [] {
      SettleSettles(Below(c));
    }
  }

  lemma AdvanceSettles(c: Position)
    requires Head(c).Some?
    ensures Settled(Advance(c))
  {
    SettleSettles(Below(c) + [Top(c).Drop()]);
  }

  /** Entering an object puts the cursor in front of its first member. */
  lemma EnterObjectPosition(c: Position)
    requires Step(c, EnterObject).Some?
    requires Head(c).value.Obj? && |Head(c).value.names| == |Head(c).value.elems|
    ensures var v := Head(c).value;
      && Settled(Advance(c))
      && Step(c, EnterObject).value == MemberPosition(Advance(c), v.names, v.elems, 0)
  {
    hide Settle;
    AdvanceSettles(c);
    var v := Head(c).value;
    assert v.names[0..] == v.names && v.elems[0..] == v.elems;
  }

  /** In front of member `i` the cursor shows that member's name and value, and steps to member `i + 1`. */
  lemma MemberAt(base: Position, names: seq<string>, elems: seq<Json>, i: nat)
    requires |names| == |elems| && i < |elems| && Settled(base)
    ensures var c := MemberPosition(base, names, elems, i);
      && Head(c) == Some(elems[i]) && Top(c).obj
      && (forall name :: NameIs(c, name) <==> names[i] == name)
      && Advance(c) == MemberPosition(base, names, elems, i + 1)
  {
    var c := MemberPosition(base, names, elems, i);
    assert Below(c) == base && Top(c) == Group(true, names[i..], elems[i..]);
    var g := Top(c).Drop();
    assert g == Group(true, names[i + 1..], elems[i + 1..]);
    var c' := base + [g];
    assert Below(c') == base && Top(c') == g;
    if i + 1 == |elems| {
      SettleSettles(base);
      assert Settle(c') == Settle(base);
    } else {
      assert Settle(c') == c';
    }
  }

  // ---- Looking a member up ----------------------------------------------------------------------

  /** The last value stored under a name, if there is one. */
  function LastOf(names: seq<string>, elems: seq<Json>, name: string): Option<Json>
    requires |names| == |elems|
  {
    if elems == [] then None
    else
      var last := |elems| - 1;
      if names[last] == name then Some(elems[last]) else LastOf(names[..last], elems[..last], name)
  }

  lemma {:induction false} LastOfCons(names: seq<string>, elems: seq<Json>, name: string)
    requires |names| == |elems| && elems != []
    ensures LastOf(names, elems, name)
         == var tail := LastOf(names[1..], elems[1..], name);
            if tail.Some? then tail else if names[0] == name then Some(elems[0]) else None
    decreases elems
  {
    var last := |elems| - 1;
    if last > 0 && names[last] != name {
      LastOfCons(names[..last], elems[..last], name);
      assert names[..last][1..] == names[1..][..last - 1] && elems[..last][1..] == elems[1..][..last - 1];
    } else if last == 0 {
      assert names[..0] == [] && elems[..0] == [];
    }
  }

  lemma NoLastOf(name: string)
    ensures LastOf([], [], name) == None
  {
  }

  lemma {:induction false} LastOfAt(names: seq<string>, elems: seq<Json>, name: string, i: nat)
    requires |names| == |elems| && i < |elems| && names[i] == name
    requires forall k :: i < k < |elems| ==> names[k] != name
    ensures LastOf(names, elems, name) == Some(elems[i])
    decreases elems
  {
    if i < |elems| - 1 {
      LastOfAt(names[..|elems| - 1], elems[..|elems| - 1], name, i);
    }
  }

  predicate Distinct(names: seq<string>) {
    forall j, k :: 0 <= j < k < |names| ==> names[j] != names[k]
  }

  /** Every member under a wanted name holds a number. */
  predicate NumbersUnder(wanted: string -> bool, names: seq<string>, elems: seq<Json>)
    requires |names| == |elems|
  {
    forall k :: 0 <= k < |elems| && wanted(names[k]) ==> IsNumber(elems[k])
  }

  lemma NumbersInTail(wanted: string -> bool, names: seq<string>, elems: seq<Json>)
    requires |names| == |elems| && elems != []
    ensures NumbersUnder(wanted, names, elems)
       <==> (wanted(names[0]) ==> IsNumber(elems[0])) && NumbersUnder(wanted, names[1..], elems[1..])
  {
    if (wanted(names[0]) ==> IsNumber(elems[0])) && NumbersUnder(wanted, names[1..], elems[1..]) {
      forall k | 0 <= k < |elems| && wanted(names[k]) ensures IsNumber(elems[k]) {
        if k > 0 {
          assert names[k] == names[1..][k - 1] && elems[k] == elems[1..][k - 1];
        }
      }
    }
  }

  lemma {:induction false} LastIsNumber(wanted: string -> bool, names: seq<string>, elems: seq<Json>, name: string)
    requires |names| == |elems| && wanted(name) && NumbersUnder(wanted, names, elems)
    ensures LastOf(names, elems, name).Some? ==> IsNumber(LastOf(names, elems, name).value)
    decreases elems
  {
    if elems != [] {
      LastIsNumber(wanted, names[..|elems| - 1], elems[..|elems| - 1], name);
    }
  }

  lemma {:induction false} NotThere(names: seq<string>, elems: seq<Json>, name: string)
    requires |names| == |elems| && name !in names
    ensures LastOf(names, elems, name) == None
    decreases elems
  {
    if elems != [] {
      NotThere(names[..|elems| - 1], elems[..|elems| - 1], name);
    }
  }

  /** The name stands at one place at most. */
  predicate AtMostOnce(names: seq<string>, name: string) {
    forall j, k :: 0 <= j < k < |names| && names[j] == name ==> names[k] != name
  }

  function Pairs(names: seq<string>, elems: seq<Json>): seq<(string, Json)>
    requires |names| == |elems|
  {
    seq(|elems|, k requires 0 <= k < |elems| => (names[k], elems[k]))
  }

  /** Two orders of the same members. */
  predicate SameMembers(names: seq<string>, elems: seq<Json>, names': seq<string>, elems': seq<Json>) {
    && |names| == |elems| && |names'| == |elems'|
    && multiset(Pairs(names, elems)) == multiset(Pairs(names', elems'))
  }

  lemma PairsAppend(a: seq<string>, x: seq<Json>, b: seq<string>, y: seq<Json>)
    requires |a| == |x| && |b| == |y|
    ensures Pairs(a + b, x + y) == Pairs(a, x) + Pairs(b, y)
  {
  }

  lemma MiddleFirst(a: seq<string>, x: seq<Json>, b: seq<string>, y: seq<Json>, c: seq<string>, z: seq<Json>)
    requires |a| == |x| && |b| == |y| && |c| == |z|
    ensures SameMembers(a + b + c, x + y + z, b + (a + c), y + (x + z))
  {
    PairsAppend(a + b, x + y, c, z);
    PairsAppend(a, x, b, y);
    PairsAppend(b, y, a + c, x + z);
    PairsAppend(a, x, c, z);
    hide Pairs;
  }

  lemma {:induction false} LastOfIsMember(names: seq<string>, elems: seq<Json>, name: string)
    requires |names| == |elems|
    ensures match LastOf(names, elems, name)
            case None => name !in names
            case Some(v) => (name, v) in Pairs(names, elems)
    decreases elems
  {
    if elems != [] {
      var last := |elems| - 1;
      if names[last] == name {
        assert Pairs(names, elems)[last] == (name, elems[last]);
      } else {
        LastOfIsMember(names[..last], elems[..last], name);
        assert Pairs(names[..last], elems[..last]) == Pairs(names, elems)[..last];
        assert names == names[..last] + [names[last]];
      }
    }
  }

  lemma MemberIsIn(names: seq<string>, elems: seq<Json>, names': seq<string>, elems': seq<Json>, m: (string, Json))
    requires SameMembers(names, elems, names', elems') && m in Pairs(names, elems)
    ensures exists k :: 0 <= k < |elems'| && m == (names'[k], elems'[k])
  {
    assert m in multiset(Pairs(names', elems'));
    var k :| 0 <= k < |elems'| && Pairs(names', elems')[k] == m;
  }

  /** A lookup of a name that is not repeated does not see the order of the members. */
  lemma LookupIgnoresOrder(names: seq<string>, elems: seq<Json>, names': seq<string>, elems': seq<Json>, name: string)
    requires SameMembers(names, elems, names', elems') && AtMostOnce(names', name)
    ensures LastOf(names, elems, name) == LastOf(names', elems', name)
  {
    LastOfIsMember(names, elems, name);
    LastOfIsMember(names', elems', name);
    match LastOf(names, elems, name)
    case Some(v) =>
      MemberIsIn(names, elems, names', elems', (name, v));
      var k :| 0 <= k < |elems'| && (name, v) == (names'[k], elems'[k]);
      LastOfAt(names', elems', name, k);
    case None =>
      if LastOf(names', elems', name).Some? {
        MemberIsIn(names', elems', names, elems, (name, LastOf(names', elems', name).value));
      }
  }
}
