/** The parse host: builds the arena from a text and serves typed reads from its frame stack, proved against
    `Cursor.Step`. */
module ParseHost {
  import opened Chars
  import opened Json
  import opened Grammar
  import opened Arena
  import opened Parser
  import opened Cursor

  datatype Frame = Frame(nodeIdx: nat, cursor: nat)

  // ---- Frames as positions ----------------------------------------------------------------------

  /** A node whose children are in the arena, with one name per child if it is an object. */
  predicate Usable(nodes: seq<Node>, i: nat) {
    && i < |nodes|
    && (forall k :: 0 <= k < |nodes[i].children| ==> nodes[i].children[k] < |nodes| - 1)
    && (nodes[i].kind == ObjectNode ==> |nodes[i].names| == |nodes[i].children|)
  }

  predicate FrameFits(nodes: seq<Node>, f: Frame) {
    Usable(nodes, f.nodeIdx) && f.cursor <= |nodes[f.nodeIdx].children|
  }

  function GroupOf(nodes: seq<Node>, f: Frame): (g: Group)
    requires FrameFits(nodes, f)
    ensures |g.vals| == |nodes[f.nodeIdx].children| - f.cursor
    ensures forall k :: 0 <= k < |g.vals| ==> g.vals[k] == Tree(nodes, nodes[f.nodeIdx].children[f.cursor + k])
  {
    var node := nodes[f.nodeIdx];
    Group(node.kind == ObjectNode,
          if node.kind == ObjectNode then node.names[f.cursor..] else [],
          seq(|node.children| - f.cursor, k requires 0 <= k < |node.children| - f.cursor => Tree(nodes, node.children[f.cursor + k])))
  }

  function Groups(nodes: seq<Node>, stack: seq<Frame>): (c: Position)
    requires forall k :: 0 <= k < |stack| ==> FrameFits(nodes, stack[k])
    ensures |c| == |stack|
  {
    seq(|stack|, k requires 0 <= k < |stack| => GroupOf(nodes, stack[k]))
  }

  lemma GroupsTop(nodes: seq<Node>, stack: seq<Frame>)
    requires stack != [] && forall k :: 0 <= k < |stack| ==> FrameFits(nodes, stack[k])
    ensures var c, f := Groups(nodes, stack), stack[|stack| - 1];
      && f.nodeIdx < |nodes|
      && c != [] && Top(c) == GroupOf(nodes, f) && Below(c) == Groups(nodes, stack[..|stack| - 1])
      && (Top(c).vals == [] <==> f.cursor >= |nodes[f.nodeIdx].children|)
  {
    hide Tree;
  }

  lemma SettleUnfolds(c: Position)
    ensures Settle(c) == if c == [] || Top(c).vals != [] then c else Settle(Below(c))
  {
  }

  /** The arena of a parsed document: its layout, and the array node that stands for "the document is next". */
  predicate ArenaFits(nodes: seq<Node>) {
    && |nodes| >= 2
    && IntervalFits(nodes[..|nodes| - 1], 0, |nodes| - 1)
    && nodes[|nodes| - 1] == BLANK.(kind := ArrayNode, children := [0])
  }

  lemma ArenaIsUsable(nodes: seq<Node>, i: nat)
    requires ArenaFits(nodes) && i < |nodes|
    ensures Usable(nodes, i)
  {
    if i < |nodes| - 1 {
      assert NodeFits(nodes[..|nodes| - 1][i], i, |nodes| - 1);
    }
  }

  lemma DropGroup(nodes: seq<Node>, f: Frame)
    requires FrameFits(nodes, f) && f.cursor < |nodes[f.nodeIdx].children|
    ensures GroupOf(nodes, Frame(f.nodeIdx, f.cursor + 1)) == GroupOf(nodes, f).Drop()
  {
    hide Tree;
    var g, g' := GroupOf(nodes, f), GroupOf(nodes, Frame(f.nodeIdx, f.cursor + 1));
    assert g'.vals == g.vals[1..];
    if g.obj {
      assert g'.names == g.names[1..];
    }
  }

  /** Entering a container node shows all of its value. */
  lemma EnterGroup(nodes: seq<Node>, i: nat)
    requires ArenaFits(nodes) && i < |nodes| - 1
    requires nodes[i].kind == ArrayNode || nodes[i].kind == ObjectNode
    ensures FrameFits(nodes, Frame(i, 0))
    ensures Tree(nodes, i).IsContainer() && GroupOf(nodes, Frame(i, 0)) == Inside(Tree(nodes, i))
  {
    ArenaIsUsable(nodes, i);
    assert NodeFits(nodes[..|nodes| - 1][i], i, |nodes| - 1);
    assert PointsForward(nodes, i);
    var g := GroupOf(nodes, Frame(i, 0));
    assert g.vals == Trees(nodes, i, nodes[i].children);
  }

  /** The kind of a node tells the kind of its value. */
  lemma TreeKind(nodes: seq<Node>, i: nat)
    requires ArenaFits(nodes) && i < |nodes| - 1
    ensures var v := Tree(nodes, i);
      match nodes[i].kind
      case ObjectNode => v.Obj? && |v.elems| == |nodes[i].children|
      case ArrayNode => v.Arr? && |v.elems| == |nodes[i].children|
      case NumberNode => v == if nodes[i].isInt then Int(nodes[i].intVal) else Real(nodes[i].text)
      case StringNode => v == Str(nodes[i].strVal)
      case BooleanNode => v == Bool(nodes[i].boolVal)
      case NullNode => v == Null
  {
    assert NodeFits(nodes[..|nodes| - 1][i], i, |nodes| - 1);
    assert PointsForward(nodes, i);
  }

  // ---- The host ---------------------------------------------------------------------------------

  /** `build_parser_state`: the arena, the index of the root and the frames to start with. */
  method BuildParserState(json: string) returns (nodes: seq<Node>, root: int, stack: seq<Frame>)
    ensures ParseValue(json) == NoValue ==> root == -1 && stack == []
    ensures ParseValue(json).Parsed? ==>
      var v := ParseValue(json).v;
      && root == 0 && ArenaFits(nodes) && Tree(nodes, 0) == v && nodes[..|nodes| - 1] == Flatten(v, 0)
      && stack == [Frame(|nodes| - 1, 0)] && FrameFits(nodes, stack[0]) && Groups(nodes, stack) == [Group(false, [], [v])]
  {
    hide ParseValue, Flatten, Tree, ArenaFits, Groups, FrameFits;
    var L := new Lexer(json);
    var P := new NodeArena();
    assert json[0..] == json;
    root := ParseAnyValue(L, P);
    nodes := P.nodes;
    stack := [];
    if root >= 0 {
      ghost var v := ParseValue(json).v;
      var virtualIdx := PushNode(P, BLANK.(kind := ArrayNode, children := [root]));
      assert [] + Flatten(v, 0) == Flatten(v, 0);
      nodes := P.nodes;
      BuiltArenaFits(json, nodes);
      BuiltStackShows(nodes, v);
      stack := [Frame(virtualIdx, 0)];
    }
  }

  /** `ParserState` behind a `JsonParseHost`. */
  class JsonParse {
    var nodes: seq<Node>
    var root: int
    var stack: seq<Frame>

    /** `(int)(float)strtod(tok)`: what the C library makes of a number token that is no integer. */
    const realToInt: string -> int

    ghost predicate Valid()
      reads this
    {
      && (stack != [] ==> ArenaFits(nodes))
      && (forall k :: 0 <= k < |stack| ==> FrameFits(nodes, stack[k]))
    }

    /** Where the cursor stands. */
    ghost function View(): (c: Position)
      requires Valid()
      reads this
    {
      Groups(nodes, stack)
    }

    /** A text the grammar accepts leaves the cursor in front of its value, stored at node 0;
        any other text leaves an empty stack, on which every read fails. */
    constructor (json: string, strtod: string -> int)
      ensures Valid() && realToInt == strtod
      ensures match ParseValue(json)
              case NoValue => root == -1 && View() == [] && stack == []
              case Parsed(v, _) => root == 0 && |nodes| >= 2 && Tree(nodes, 0) == v && nodes[..|nodes| - 1] == Flatten(v, 0)
                                   && View() == [Group(false, [], [v])]
    {
      hide ParseValue, Flatten, Tree, ArenaFits, Groups, FrameFits;
      realToInt := strtod;
      var builtNodes, builtRoot, builtStack := BuildParserState(json);
      nodes, root, stack := builtNodes, builtRoot, builtStack;
    }

    /** `peek_value`: the node of the head, or -1. */
    method PeekValue() returns (v: int)
      requires Valid()
      ensures v >= 0 <==> Head(View()).Some?
      ensures v >= 0 ==> stack != [] && v < |nodes| - 1 && Tree(nodes, v) == Head(View()).value
    {
      if stack == [] {
        return -1;
      }
      var f := stack[|stack| - 1];
      var c := nodes[f.nodeIdx];
      assert Top(View()) == GroupOf(nodes, f);
      if f.cursor >= |c.children| {
        return -1;
      }
      return c.children[f.cursor];
    }

    /** `advance`: steps past the head and leaves every container this exhausts. */
    method AdvanceCursor()
      requires Valid() && Head(View()).Some?
      modifies this`stack
      ensures Valid() && View() == Advance(old(View()))
    {
      hide Tree, ArenaFits, Settle;
      ghost var c := View();
      var last := |stack| - 1;
      var f := stack[last];
      assert Top(c) == GroupOf(nodes, f);
      DropGroup(nodes, f);
      stack := stack[last := Frame(f.nodeIdx, f.cursor + 1)];
      assert View() == Below(c) + [Top(c).Drop()];
      PopExhausted();
    }

    /** The loop of `advance`. */
    method PopExhausted()
      requires Valid()
      modifies this`stack
      ensures Valid() && View() == Settle(old(View()))
    {
      hide Tree, ArenaFits, Groups, GroupOf, Settle, FrameFits;
      while stack != []
        invariant Valid()
        invariant Settle(View()) == Settle(old(View()))
        decreases |stack|
      {
        var tf := stack[|stack| - 1];
        GroupsTop(nodes, stack);
        SettleUnfolds(View());
        if tf.cursor < |nodes[tf.nodeIdx].children| {
          break;
        }
        stack := stack[..|stack| - 1];
      }
      SettleUnfolds(View());
    }

    /** `numberOfArrayElements` and `numberOfObjectMembers`: enters the head if it is of that kind. */
    method EnterContainer(obj: bool) returns (ok: bool, num: int)
      requires Valid()
      modifies this`stack
      ensures Valid()
      ensures match Step(old(View()), if obj then EnterObject else EnterArray)
              case None => !ok && stack == old(stack)
              case Some(c) => ok && View() == c && num == ItemCount(old(View()))
      ensures ok ==> var v := Head(old(View())).value; v.IsContainer() && v.Obj? == obj && num == |v.elems|
    {
      hide Tree, Advance, ArenaFits, GroupOf, Usable;
      num := 0;
      var v := PeekValue();
      if v >= 0 {
        TreeKind(nodes, v);
      }
      if v < 0 || nodes[v].kind != ContainerKind(obj) {
        return false, num;
      }
      EnterGroup(nodes, v);
      num := |nodes[v].children|;
      AdvanceCursor();
      ghost var c := View();
      stack := stack + [Frame(v, 0)];
      assert View() == c + [GroupOf(nodes, Frame(v, 0))];
      return true, num;
    }

    method MatchName(name: CString) returns (ok: bool)
      requires Valid()
      ensures ok == NameIs(View(), name)
    {
      hide Tree, ArenaFits;
      if stack == [] {
        return false;
      }
      var f := stack[|stack| - 1];
      var c := nodes[f.nodeIdx];
      assert Top(View()) == GroupOf(nodes, f);
      if c.kind != ObjectNode {
        return false;
      }
      if f.cursor >= |c.names| {
        return false;
      }
      return c.names[f.cursor] == name;
    }

    method SkipOneMember() returns (ok: bool)
      requires Valid()
      modifies this`stack
      ensures Valid()
      ensures match Step(old(View()), SkipMember)
              case None => !ok && stack == old(stack)
              case Some(c) => ok && View() == c
    {
      hide Tree, ArenaFits, Advance;
      if stack == [] {
        return false;
      }
      var f := stack[|stack| - 1];
      var c := nodes[f.nodeIdx];
      assert Top(View()) == GroupOf(nodes, f);
      if c.kind != ObjectNode {
        return false;
      }
      if f.cursor >= |c.children| {
        return false;
      }
      AdvanceCursor();
      return true;
    }

    /** `number(int&)` */
    method Number() returns (ok: bool, v: int)
      requires Valid()
      modifies this`stack
      ensures Valid()
      ensures match Step(old(View()), ReadNumber)
              case None => !ok && stack == old(stack)
              case Some(c) => ok && View() == c && v == NumberOf(Head(old(View())).value, realToInt)
      ensures ok ==> match Head(old(View())).value
                     case Int(n) => v == n
                     case Real(tok) => v == realToInt(tok)
                     case _ => false
    {
      hide Tree, ArenaFits, Advance;
      v := 0;
      var idx := PeekValue();
      if idx >= 0 {
        TreeKind(nodes, idx);
      }
      if idx < 0 || nodes[idx].kind != NumberNode {
        return false, v;
      }
      v := if nodes[idx].isInt then nodes[idx].intVal else realToInt(nodes[idx].text);
      AdvanceCursor();
      return true, v;
    }

    /** `string(const char*&)`: the reader sees the text up to its first NUL. */
    method String() returns (ok: bool, str: string)
      requires Valid()
      modifies this`stack
      ensures Valid()
      ensures match Step(old(View()), ReadString)
              case None => !ok && stack == old(stack)
              case Some(c) => ok && View() == c && str == CStr(Head(old(View())).value.s)
    {
      hide Tree, ArenaFits, Advance;
      str := [];
      var idx := PeekValue();
      if idx >= 0 {
        TreeKind(nodes, idx);
      }
      if idx < 0 || nodes[idx].kind != StringNode {
        return false, str;
      }
      str := CStr(nodes[idx].strVal);
      AdvanceCursor();
      return true, str;
    }

    /** `boolean(bool&)` */
    method Boolean() returns (ok: bool, v: bool)
      requires Valid()
      modifies this`stack
      ensures Valid()
      ensures match Step(old(View()), ReadBoolean)
              case None => !ok && stack == old(stack)
              case Some(c) => ok && View() == c && v == Head(old(View())).value.b
    {
      hide Tree, ArenaFits, Advance;
      v := false;
      var idx := PeekValue();
      if idx >= 0 {
        TreeKind(nodes, idx);
      }
      if idx < 0 || nodes[idx].kind != BooleanNode {
        return false, v;
      }
      v := nodes[idx].boolVal;
      AdvanceCursor();
      return true, v;
    }

    /** `null()` */
    method ReadNullValue() returns (ok: bool)
      requires Valid()
      modifies this`stack
      ensures Valid()
      ensures match Step(old(View()), ReadNull)
              case None => !ok && stack == old(stack)
              case Some(c) => ok && View() == c
    {
      hide Tree, ArenaFits, Advance;
      var idx := PeekValue();
      if idx >= 0 {
        TreeKind(nodes, idx);
      }
      if idx < 0 || nodes[idx].kind != NullNode {
        return false;
      }
      AdvanceCursor();
      return true;
    }
  }

  /** The number of items of the container at the cursor. */
  function ItemCount(c: Position): nat {
    match Head(c)
    case None => 0
    case Some(v) => if v.IsContainer() then |v.elems| else 0
  }

  /** An object in front of the cursor has one name per value. */
  lemma HeadIsNamed(p: JsonParse)
    requires p.Valid()
    ensures Head(p.View()).Some? && Head(p.View()).value.Obj? ==>
      |Head(p.View()).value.names| == |Head(p.View()).value.elems|
  {
    hide Tree, GroupOf;
    if Head(p.View()).Some? {
      GroupsTop(p.nodes, p.stack);
      HeadOfGroupIsNamed(p.nodes, p.stack[|p.stack| - 1]);
    }
  }

  lemma HeadOfGroupIsNamed(nodes: seq<Node>, f: Frame)
    requires ArenaFits(nodes) && FrameFits(nodes, f) && GroupOf(nodes, f).vals != []
    ensures var v := GroupOf(nodes, f).vals[0]; v.Obj? ==> |v.names| == |v.elems|
  {
    var i := nodes[f.nodeIdx].children[f.cursor];
    ArenaIsUsable(nodes, i);
    assert NodeFits(nodes[..|nodes| - 1][i], i, |nodes| - 1);
  }

  /** What `number(int&)` delivers for a number. */
  function NumberOf(v: Json, realToInt: string -> int): int
    requires IsNumber(v)
  {
    if v.Int? then v.n else realToInt(v.tok)
  }

  /** The first frame stands in front of the document. */
  lemma BuiltStackShows(nodes: seq<Node>, v: Json)
    requires ArenaFits(nodes) && Tree(nodes, 0) == v
    ensures var f := Frame(|nodes| - 1, 0);
      FrameFits(nodes, f) && Groups(nodes, [f]) == [Group(false, [], [v])]
  {
    hide Tree, IntervalFits;
    var f := Frame(|nodes| - 1, 0);
    ArenaIsUsable(nodes, f.nodeIdx);
    assert GroupOf(nodes, f).vals == [v];
  }

  lemma BuiltArenaFits(json: string, nodes: seq<Node>)
    requires ParseValue(json).Parsed?
    requires nodes == Flatten(ParseValue(json).v, 0) + [BLANK.(kind := ArrayNode, children := [0])]
    ensures ArenaFits(nodes) && Tree(nodes, 0) == ParseValue(json).v
    ensures nodes[..|nodes| - 1] == Flatten(ParseValue(json).v, 0)
  {
    hide ParseValue, Flatten, IntervalFits;
    var v, post := ParseValue(json).v, [BLANK.(kind := ArrayNode, children := [0])];
    ParsedIsCanonical(json);
    WfIsNamed(v);
    FlattenFits(v, 0);
    TreeInvertsFlatten(v, [], post);
    assert nodes == [] + Flatten(v, 0) + post;
    assert nodes[..|nodes| - 1] == Flatten(v, 0);
  }
}
