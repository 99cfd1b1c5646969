/** JSON values and their token texts. */
module Json {
  import opened Chars
  import opened Strings
  import opened Numbers

  /** A JSON value. An object keeps its names and values in parallel, as an arena node does. A float is kept as its
      number token. */
  datatype Json =
    | Null
    | Bool(b: bool)
    | Int(n: int)
    | Real(tok: string)
    | Str(s: string)
    | Arr(elems: seq<Json>)
    | Obj(names: seq<string>, elems: seq<Json>)
  {
    predicate IsContainer() {
      Arr? || Obj?
    }

    /** The member names of an object; none for anything else. */
    function Names(): seq<string> {
      if Obj? then names else []
    }
  }

  predicate IsNumber(v: Json) {
    v.Int? || v.Real?
  }

  /** Values that have a text: 32-bit integers, floats that print as number tokens, one name per member. */
  predicate Wf(v: Json) {
    match v
    case Int(n) => IsInt32(n)
    case Real(tok) => IsNumberToken(tok)
    case Arr(elems) => forall k :: 0 <= k < |elems| ==> Wf(elems[k])
    case Obj(names, elems) => |names| == |elems| && forall k :: 0 <= k < |elems| ==> Wf(elems[k])
    case _ => true
  }

  /** Values the stream's calls can be given: strings and names are passed as C strings, so hold no NUL. */
  predicate Writable(v: Json) {
    match v
    case Int(n) => IsInt32(n)
    case Real(tok) => IsNumberToken(tok)
    case Str(s) => IsCString(s)
    case Arr(elems) => forall k :: 0 <= k < |elems| ==> Writable(elems[k])
    case Obj(names, elems) => |names| == |elems| && forall k :: 0 <= k < |elems| ==> IsCString(names[k]) && Writable(elems[k])
    case _ => true
  }

  lemma {:induction false} WritableIsWf(v: Json)
    ensures Writable(v) ==> Wf(v)
  {
    if Writable(v) && v.IsContainer() {
      forall k | 0 <= k < |v.elems| ensures Wf(v.elems[k]) {
        WritableIsWf(v.elems[k]);
      }
    }
  }

  /** The value a reader makes of the text of a value: a float that prints without dot and exponent is read as an
      integer. */
  function AsRead(v: Json): Json
    decreases v, 1
  {
    match v
    case Real(tok) => if IsRealToken(tok) then v else Int(DecimalToInt32(tok))
    case Arr(elems) => Arr(AllAsRead(elems))
    case Obj(names, elems) => Obj(names, AllAsRead(elems))
    case _ => v
  }

  function AllAsRead(vs: seq<Json>): (r: seq<Json>)
    ensures |r| == |vs|
    decreases vs, 0
  {
    seq(|vs|, k requires 0 <= k < |vs| => AsRead(vs[k]))
  }

  lemma IntIsRead(vs: seq<Json>, i: nat)
    requires i < |vs| && vs[i].Int?
    ensures AllAsRead(vs)[i] == vs[i]
  {
  }

  /** Every float prints with a dot or an exponent. */
  predicate FloatsAreMarked(v: Json) {
    match v
    case Real(tok) => IsRealToken(tok)
    case Arr(elems) => forall k :: 0 <= k < |elems| ==> FloatsAreMarked(elems[k])
    case Obj(names, elems) => forall k :: 0 <= k < |elems| ==> FloatsAreMarked(elems[k])
    case _ => true
  }

  /** A reader gets a value back unchanged exactly if every float in it is marked as one. */
  lemma {:induction false} AsReadKeepsMarked(v: Json)
    ensures AsRead(v) == v <==> FloatsAreMarked(v)
  {
    if v.IsContainer() {
      forall k | 0 <= k < |v.elems| ensures AllAsRead(v.elems)[k] == v.elems[k] <==> FloatsAreMarked(v.elems[k]) {
        AsReadKeepsMarked(v.elems[k]);
      }
      assert AllAsRead(v.elems) == v.elems <==> forall k :: 0 <= k < |v.elems| ==> FloatsAreMarked(v.elems[k]);
    }
  }

  // ---- Tokens -----------------------------------------------------------------------------------

  function NameAt(names: seq<string>, k: nat): string {
    if k < |names| then names[k] else []
  }

  function OpenChar(obj: bool): char {
    if obj then '{' else '['
  }

  function CloseChar(obj: bool): char {
    if obj then '}' else ']'
  }

  function NameTokens(obj: bool, name: string): seq<string> {
    if obj then [Quote(name), ":"] else []
  }

  /** The text of a value that is no container. */
  function ScalarToken(v: Json): string
    requires !v.IsContainer()
  {
    match v
    case Null => "null"
    case Bool(b) => if b then "true" else "false"
    case Int(n) => IntText(n)
    case Real(tok) => tok
    case Str(s) => Quote(s)
  }

  /** Comma before an item that is not the first. */
  function Comma(first: bool): seq<string> {
    if first then [] else [","]
  }

  /** Items with commas between them, and one before the first unless `first`. */
  function Joined(first: bool, items: seq<seq<string>>): seq<string> {
    if items == [] then [] else Comma(first) + items[0] + Joined(false, items[1..])
  }

  lemma Regrouped<T>(a: seq<T>, b: seq<T>, c: seq<T>)
    ensures a + b + c == a + (b + c)
  {
  }

  lemma {:induction false} JoinedSnoc(first: bool, items: seq<seq<string>>, item: seq<string>)
    ensures Joined(first, items + [item]) == Joined(first, items) + Comma(first && items == []) + item
  {
    if items == [] {
      assert (items + [item])[1..] == [];
    } else {
      assert (items + [item])[1..] == items[1..] + [item];
      JoinedSnoc(false, items[1..], item);
    }
  }

  /** The tokens of a value, in order. */
  function Tokens(v: Json): (r: seq<string>)
    ensures r != []
    decreases v, 1
  {
    if v.IsContainer() then ContainerTokens(v.Obj?, Joined(true, ItemList(v.Obj?, v.Names(), v.elems)))
    else [ScalarToken(v)]
  }

  function ContainerTokens(obj: bool, inside: seq<string>): seq<string> {
    [[OpenChar(obj)]] + inside + [[CloseChar(obj)]]
  }

  /** The tokens of one item of a container. */
  function Item(obj: bool, name: string, v: Json): (r: seq<string>)
    ensures r != []
    decreases v, 2
  {
    NameTokens(obj, name) + Tokens(v)
  }

  /** The token lists of the items of a container. */
  function ItemList(obj: bool, names: seq<string>, elems: seq<Json>): (r: seq<seq<string>>)
    ensures |r| == |elems|
    decreases elems, 0
  {
    seq(|elems|, k requires 0 <= k < |elems| => Item(obj, NameAt(names, k), elems[k]))
  }

  lemma ItemListSnoc(obj: bool, names: seq<string>, elems: seq<Json>, name: string, v: Json)
    requires |names| == if obj then |elems| else 0
    ensures ItemList(obj, if obj then names + [name] else [], elems + [v])
         == ItemList(obj, names, elems) + [Item(obj, name, v)]
  {
    if !obj {
      assert Item(obj, [], v) == Item(obj, name, v);
    }
  }

  lemma ItemListCons(obj: bool, names: seq<string>, elems: seq<Json>)
    requires elems != [] && |names| == if obj then |elems| else 0
    ensures ItemList(obj, names, elems)[0] == Item(obj, NameAt(names, 0), elems[0])
    ensures ItemList(obj, names, elems)[1..] == ItemList(obj, if obj then names[1..] else [], elems[1..])
  {
  }

  // ---- Texts ------------------------------------------------------------------------------------

  /** The tokens written one behind the other. */
  function Concat(toks: seq<string>): string {
    if toks == [] then [] else toks[0] + Concat(toks[1..])
  }

  lemma {:induction false} ConcatAppend(a: seq<string>, b: seq<string>)
    ensures Concat(a + b) == Concat(a) + Concat(b)
  {
    if a == [] {
      assert a + b == b;
    } else {
      assert (a + b)[1..] == a[1..] + b;
      ConcatAppend(a[1..], b);
    }
  }

  lemma ConcatSnoc(a: seq<string>, tok: string)
    ensures Concat(a + [tok]) == Concat(a) + tok
  {
    ConcatAppend(a, [tok]);
    assert [tok][1..] == [];
    assert Concat([tok]) == tok + [];
  }

  /** The compact text of a value: what the writer prints. */
  function Text(v: Json): string {
    Concat(Tokens(v))
  }

  /** The tokens with the text `gap(i + k)` before the k-th of them. */
  function Weave(toks: seq<string>, gap: nat -> string, i: nat): string {
    if toks == [] then [] else gap(i) + toks[0] + Weave(toks[1..], gap, i + 1)
  }

  ghost predicate AllGapsSpace(gap: nat -> string) {
    forall i: nat :: AllSpace(gap(i))
  }

  lemma {:induction false} WeaveAppend(a: seq<string>, b: seq<string>, gap: nat -> string, i: nat)
    ensures Weave(a + b, gap, i) == Weave(a, gap, i) + Weave(b, gap, i + |a|)
  {
    if a == [] {
      assert a + b == b;
    } else {
      assert (a + b)[1..] == a[1..] + b;
      WeaveAppend(a[1..], b, gap, i + 1);
    }
  }

  lemma {:induction false} WeaveWithoutGaps(toks: seq<string>, i: nat)
    ensures Weave(toks, _ => [], i) == Concat(toks)
  {
    if toks != [] {
      WeaveWithoutGaps(toks[1..], i + 1);
    }
  }

  // ---- Size -------------------------------------------------------------------------------------

  /** How many values a value is made of, itself included. */
  function Size(v: Json): (r: nat)
    ensures r >= 1
    decreases v, 1
  {
    1 + if v.IsContainer() then SizeAll(v.elems) else 0
  }

  function SizeAll(vs: seq<Json>): nat
    decreases vs, 0
  {
    if vs == [] then 0 else Size(vs[0]) + SizeAll(vs[1..])
  }
}
