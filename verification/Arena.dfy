/** The parser's node arena: how a value is laid out in it, and how it is read back. */
module Arena {
  import opened Json

  datatype NodeKind = ObjectNode | ArrayNode | NumberNode | StringNode | BooleanNode | NullNode

  /** A node. `text` is the token of a number that is not an integer, whose float value is left to the reader. */
  datatype Node = Node(kind: NodeKind, children: seq<nat>, names: seq<string>,
                       intVal: int, isInt: bool, text: string, boolVal: bool, strVal: string)

  /** `Node{}`. */
  const BLANK := Node(ObjectNode, [], [], 0, true, [], false, [])

  function ContainerKind(obj: bool): NodeKind {
    if obj then ObjectNode else ArrayNode
  }

  /** The node of a value whose children stand at the given indices. */
  function NodeOf(v: Json, children: seq<nat>): Node {
    match v
    case Null => BLANK.(kind := NullNode)
    case Bool(b) => BLANK.(kind := BooleanNode, boolVal := b)
    case Int(n) => BLANK.(kind := NumberNode, intVal := n)
    case Real(tok) => BLANK.(kind := NumberNode, isInt := false, text := tok)
    case Str(s) => BLANK.(kind := StringNode, strVal := s)
    case Arr(_) => BLANK.(kind := ArrayNode, children := children)
    case Obj(names, _) => BLANK.(kind := ObjectNode, names := names, children := children)
  }

  // ---- Layout -----------------------------------------------------------------------------------

  /** The arena interval of a value whose own node stands at index `at`: its node, then its children in order. */
  function Flatten(v: Json, at: nat): (r: seq<Node>)
    ensures |r| == Size(v)
    decreases v, 1
  {
    if v.IsContainer() then [NodeOf(v, ChildIndices(v.elems, at + 1))] + FlattenAll(v.elems, at + 1)
    else [NodeOf(v, [])]
  }

  function FlattenAll(vs: seq<Json>, at: nat): (r: seq<Node>)
    ensures |r| == SizeAll(vs)
    decreases vs, 0
  {
    if vs == [] then [] else Flatten(vs[0], at) + FlattenAll(vs[1..], at + Size(vs[0]))
  }

  function ChildIndices(vs: seq<Json>, at: nat): (r: seq<nat>)
    ensures |r| == |vs|
    decreases vs
  {
    if vs == [] then [] else [at] + ChildIndices(vs[1..], at + Size(vs[0]))
  }

  lemma {:induction false} FlattenAllSnoc(vs: seq<Json>, v: Json, at: nat)
    ensures FlattenAll(vs + [v], at) == FlattenAll(vs, at) + Flatten(v, at + SizeAll(vs))
    ensures ChildIndices(vs + [v], at) == ChildIndices(vs, at) + [at + SizeAll(vs)]
    decreases vs
  {
    hide Flatten, Size;
    if vs == [] {
      assert (vs + [v])[1..] == [];
    } else {
      assert (vs + [v])[0] == vs[0] && (vs + [v])[1..] == vs[1..] + [v];
      FlattenAllSnoc(vs[1..], v, at + Size(vs[0]));
    }
  }

  // ---- Reading back -----------------------------------------------------------------------------

  /** All children of node `i` stand behind it. */
  predicate PointsForward(nodes: seq<Node>, i: nat)
    requires i < |nodes|
  {
    forall k :: 0 <= k < |nodes[i].children| ==> i < nodes[i].children[k] < |nodes|
  }

  /** The value node `i` denotes. */
  function Tree(nodes: seq<Node>, i: nat): Json
    requires i < |nodes|
    decreases |nodes| - i, 1
  {
    var node := nodes[i];
    match node.kind
    case NullNode => Null
    case BooleanNode => Bool(node.boolVal)
    case NumberNode => if node.isInt then Int(node.intVal) else Real(node.text)
    case StringNode => Str(node.strVal)
    case ArrayNode => if PointsForward(nodes, i) then Arr(Trees(nodes, i, node.children)) else Null
    case ObjectNode => if PointsForward(nodes, i) then Obj(node.names, Trees(nodes, i, node.children)) else Null
  }

  function Trees(nodes: seq<Node>, above: nat, at: seq<nat>): (r: seq<Json>)
    requires above < |nodes| && forall k :: 0 <= k < |at| ==> above < at[k] < |nodes|
    ensures |r| == |at|
    decreases |nodes| - above, 0
  {
    seq(|at|, k requires 0 <= k < |at| => Tree(nodes, at[k]))
  }

  lemma NoChildIndices(at: nat)
    ensures ChildIndices([], at) == []
  {
  }

  /** A laid out value is read back, whatever stands around it in the arena. */
  lemma {:induction false} TreeInvertsFlatten(v: Json, pre: seq<Node>, post: seq<Node>)
    ensures var nodes := pre + Flatten(v, |pre|) + post;
      Tree(nodes, |pre|) == v
    decreases v, 1
  {
    hide Flatten, FlattenAll, ChildIndices, Tree;
    var at := |pre|;
    var nodes := pre + Flatten(v, at) + post;
    FlattenUnfolds(v, at);
    var children := if v.IsContainer() then ChildIndices(v.elems, at + 1) else [];
    assert nodes[at] == NodeOf(v, children);
    if v.IsContainer() {
      var front := pre + [nodes[at]];
      assert nodes == front + FlattenAll(v.elems, at + 1) + post;
      TreesInvertFlatten(v.elems, at, front, post);
    }
    TreeOfNode(nodes, at, v, children);
  }

  lemma FlattenUnfolds(v: Json, at: nat)
    ensures Flatten(v, at) == if v.IsContainer() then [NodeOf(v, ChildIndices(v.elems, at + 1))] + FlattenAll(v.elems, at + 1)
                              else [NodeOf(v, [])]
  {
  }

  lemma FlattenAllUnfolds(vs: seq<Json>, at: nat)
    requires vs != []
    ensures FlattenAll(vs, at) == Flatten(vs[0], at) + FlattenAll(vs[1..], at + Size(vs[0]))
    ensures ChildIndices(vs, at) == [at] + ChildIndices(vs[1..], at + Size(vs[0]))
  {
  }

  /** The node of a value denotes it once its children denote the items. */
  lemma TreeOfNode(nodes: seq<Node>, i: nat, v: Json, children: seq<nat>)
    requires i < |nodes| && nodes[i] == NodeOf(v, children)
    requires v.IsContainer() ==>
      (forall k :: 0 <= k < |children| ==> i < children[k] < |nodes|) && Trees(nodes, i, children) == v.elems
    ensures Tree(nodes, i) == v
  {
    hide Trees;
  }

  lemma {:induction false} TreesInvertFlatten(vs: seq<Json>, above: nat, pre: seq<Node>, post: seq<Node>)
    requires above < |pre|
    ensures var nodes, at := pre + FlattenAll(vs, |pre|) + post, ChildIndices(vs, |pre|);
      && (forall k :: 0 <= k < |at| ==> above < at[k] < |nodes|)
      && Trees(nodes, above, at) == vs
    decreases vs, 0
  {
    hide Flatten, FlattenAll, ChildIndices, Tree, Size;
    if vs == [] {
      NoChildIndices(|pre|);
    } else {
      FlattenAllUnfolds(vs, |pre|);
      var nodes := pre + FlattenAll(vs, |pre|) + post;
      var first, rest := Flatten(vs[0], |pre|), FlattenAll(vs[1..], |pre| + Size(vs[0]));
      assert nodes == pre + first + (rest + post);
      TreeInvertsFlatten(vs[0], pre, rest + post);
      assert nodes == (pre + first) + rest + post;
      TreesInvertFlatten(vs[1..], above, pre + first, post);
      var at, at' := ChildIndices(vs, |pre|), ChildIndices(vs[1..], |pre| + Size(vs[0]));
      forall k | 0 <= k < |at| ensures above < at[k] < |nodes| && Tree(nodes, at[k]) == vs[k] {
        if k > 0 {
          assert at[k] == at'[k - 1];
          assert Trees(nodes, above, at')[k - 1] == vs[1..][k - 1];
        }
      }
    }
  }

  // ---- Shape of the layout ----------------------------------------------------------------------

  /** Every object names each of its values exactly once, at every depth. */
  predicate Named(v: Json) {
    v.IsContainer() ==>
      && (v.Obj? ==> |v.names| == |v.elems|)
      && forall k :: 0 <= k < |v.elems| ==> Named(v.elems[k])
  }

  /** Node `j` of an interval that starts at `at` and ends at `end`: its children lie behind it inside the
      interval, and an object has as many names as children. */
  predicate NodeFits(node: Node, index: nat, end: nat) {
    && (forall k :: 0 <= k < |node.children| ==> index < node.children[k] < end)
    && (node.kind == ObjectNode ==> |node.names| == |node.children|)
  }

  predicate IntervalFits(nodes: seq<Node>, at: nat, end: nat) {
    forall j :: 0 <= j < |nodes| ==> NodeFits(nodes[j], at + j, end)
  }

  lemma {:induction false} ChildIndicesBounds(vs: seq<Json>, at: nat)
    ensures forall k :: 0 <= k < |vs| ==> at <= ChildIndices(vs, at)[k] < at + SizeAll(vs)
    decreases vs
  {
    hide Size;
    if vs != [] {
      ChildIndicesBounds(vs[1..], at + Size(vs[0]));
    }
  }

  /** Children stand behind their parent and inside its interval. */
  lemma {:induction false} FlattenFits(v: Json, at: nat)
    requires Named(v)
    ensures IntervalFits(Flatten(v, at), at, at + Size(v))
    decreases v, 1
  {
    if v.IsContainer() {
      FlattenAllFits(v.elems, at + 1);
      ChildIndicesBounds(v.elems, at + 1);
      var rest := FlattenAll(v.elems, at + 1);
      forall j | 0 < j < |Flatten(v, at)| ensures NodeFits(Flatten(v, at)[j], at + j, at + Size(v)) {
        assert NodeFits(rest[j - 1], at + 1 + (j - 1), at + 1 + SizeAll(v.elems));
      }
    }
  }

  lemma {:induction false} FlattenAllFits(vs: seq<Json>, at: nat)
    requires forall k :: 0 <= k < |vs| ==> Named(vs[k])
    ensures IntervalFits(FlattenAll(vs, at), at, at + SizeAll(vs))
    decreases vs, 0
  {
    if vs != [] {
      var n := Size(vs[0]);
      FlattenFits(vs[0], at);
      FlattenAllFits(vs[1..], at + n);
      var all, first, rest := FlattenAll(vs, at), Flatten(vs[0], at), FlattenAll(vs[1..], at + n);
      forall j | 0 <= j < |all| ensures NodeFits(all[j], at + j, at + SizeAll(vs)) {
        if j < n {
          assert NodeFits(first[j], at + j, at + n);
        } else {
          assert NodeFits(rest[j - n], at + n + (j - n), at + n + SizeAll(vs[1..]));
        }
      }
    }
  }

  function Occurrences(at: seq<nat>, j: nat): nat {
    if at == [] then 0 else (if at[0] == j then 1 else 0) + Occurrences(at[1..], j)
  }

  /** How often index `j` is named as a child in these nodes. */
  function References(nodes: seq<Node>, j: nat): nat {
    if nodes == [] then 0 else Occurrences(nodes[0].children, j) + References(nodes[1..], j)
  }

  lemma {:induction false} ReferencesAppend(a: seq<Node>, b: seq<Node>, j: nat)
    ensures References(a + b, j) == References(a, j) + References(b, j)
  {
    if a == [] {
      assert a + b == b;
    } else {
      assert (a + b)[1..] == a[1..] + b;
      ReferencesAppend(a[1..], b, j);
    }
  }

  /** In the layout of a value every node but the root is the child of exactly one node, once,
      and nothing outside the interval is a child. */
  lemma {:induction false} FlattenReferences(v: Json, at: nat, j: nat)
    ensures References(Flatten(v, at), j) == if at < j < at + Size(v) then 1 else 0
    decreases v, 1
  {
    if v.IsContainer() {
      var node, rest := NodeOf(v, ChildIndices(v.elems, at + 1)), FlattenAll(v.elems, at + 1);
      assert Flatten(v, at) == [node] + rest;
      assert ([node] + rest)[1..] == rest;
      FlattenAllReferences(v.elems, at + 1, j);
    } else {
      assert [NodeOf(v, [])][1..] == [];
    }
  }

  lemma {:induction false} FlattenAllReferences(vs: seq<Json>, at: nat, j: nat)
    ensures References(FlattenAll(vs, at), j) + Occurrences(ChildIndices(vs, at), j)
         == if at <= j < at + SizeAll(vs) then 1 else 0
    decreases vs, 0
  {
    hide Flatten, Size, References;
    if vs == [] {
      NoReferences(j);
    } else {
      var n := Size(vs[0]);
      var first, rest, indices := Flatten(vs[0], at), FlattenAll(vs[1..], at + n), ChildIndices(vs[1..], at + n);
      FlattenReferences(vs[0], at, j);
      FlattenAllReferences(vs[1..], at + n, j);
      ReferencesAppend(first, rest, j);
      assert ([at] + indices)[1..] == indices;
    }
  }

  lemma NoReferences(j: nat)
    ensures References([], j) == 0
  {
  }

  lemma {:induction false} WfIsNamed(v: Json)
    requires Wf(v)
    ensures Named(v)
  {
    if v.IsContainer() {
      forall k | 0 <= k < |v.elems| ensures Named(v.elems[k]) {
        WfIsNamed(v.elems[k]);
      }
    }
  }
}
