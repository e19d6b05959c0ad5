/**
 cmd/pack-tools/converter/passlogic.go: the AND/OR/NOT tree over condition IDs becomes shell text.
 */
module PassLogic {
  import opened Common
  import opened Conditions

  /** A decoded JSON value; Other stands for null, numbers and booleans. */
  datatype Json =
    | Str(s: string)
    | Arr(items: seq<Json>)
    | Obj(fields: map<string, Json>)
    | Other

  /** The raw pass_logic field: absent, not JSON, or decoded. */
  datatype RawLogic = Absent | Malformed | Decoded(node: Json)

  type Leaf = string -> Result<string, ConvError>

  /** strings.ToUpper where it can reach the letters of AND, OR and NOT. */
  function ToUpper(s: string): (r: string)
    ensures |r| == |s|
  {
    seq(|s|, i requires 0 <= i < |s| => if 'a' <= s[i] <= 'z' then s[i] - 'a' + 'A' else s[i])
  }

  /** Capital letters and small ones are alike. */
  lemma ConnectiveCase(s: string, t: string)
    requires |s| == |t| && forall i :: 0 <= i < |s| ==> FoldChar(s[i]) == FoldChar(t[i])
    ensures ToUpper(s) == ToUpper(t)
  {
  }

  function OnlyKey(m: map<string, Json>): (k: string)
    requires |m| == 1
    ensures m.Keys == {k}
  {
    assert |m.Keys| == 1;
    assert m.Keys != {};
    assert forall a | a in m.Keys :: m.Keys == {a} by {
      forall a | a in m.Keys ensures m.Keys == {a} {
        assert |m.Keys - {a}| == 0;
      }
    }
    var k :| k in m.Keys;
    k
  }

  // ---------------------------------------------------------------- what the text is

  function NodeToBash(node: Json, leaf: Leaf): Result<string, ConvError>
    decreases node, 2
  {
    match node
    case Str(s) => leaf(s)
    case Obj(fields) =>
      if |fields| != 1 then Err(InvalidShape)
      else
        var op := OnlyKey(fields);
        var args := fields[op];
        (match ToUpper(op)
         case "AND" => JoinChildren(args, leaf, " && ")
         case "OR" => JoinChildren(args, leaf, " || ")
         case "NOT" => NotChild(args, leaf)
         case _ => Err(UnknownOp(op)))
    case _ => Err(InvalidShape)
  }

  function JoinChildren(args: Json, leaf: Leaf, sep: string): Result<string, ConvError>
    decreases args, 1
  {
    if !args.Arr? then Err(InvalidShape)
    else if args.items == [] then Err(EmptyArgs)
    else match Parts(args.items, |args.items|, leaf)
      case Err(e) => Err(e)
      case Ok(parts) => Ok(Join(parts, sep))
  }

  /** The braced texts of the first n children; the first child that fails decides the error. */
  function Parts(items: seq<Json>, n: nat, leaf: Leaf): (r: Result<seq<string>, ConvError>)
    requires n <= |items|
    ensures r.Ok? ==> |r.value| == n
    decreases items, 0, n
  {
    if n == 0 then Ok([])
    else match Parts(items, n - 1, leaf)
      case Err(e) => Err(e)
      case Ok(parts) =>
        match NodeToBash(items[n - 1], leaf)
        case Err(e) => Err(e)
        case Ok(s) => Ok(parts + ["{ " + s + "; }"])
  }

  function NotChild(args: Json, leaf: Leaf): Result<string, ConvError>
    decreases args, 1
  {
    if !args.Arr? then Err(InvalidShape)
    else if |args.items| != 1 then Err(InvalidNotArgs)
    else match NodeToBash(args.items[0], leaf)
      case Err(e) => Err(e)
      case Ok(inner) => Ok("! { " + inner + "; }")
  }

  // ---------------------------------------------------------------- how it is computed

  /** A text exactly for a decoded tree of the format whose leaves can all be translated: that tree's. */
  method PassLogicToBash(raw: RawLogic, leaf: Leaf) returns (r: Result<string, ConvError>)
    ensures r.Ok? <==> raw.Decoded? && IsTreeOver(raw.node, leaf)
    ensures r.Ok? ==> r.value == Render(ReadTree(raw.node).value, LeafText(leaf))
    ensures r == if raw.Decoded? then NodeToBash(raw.node, leaf) else Err(InvalidShape)
  {
    if !raw.Decoded? {
      return Err(InvalidShape);
    }
    r := PassLogicNodeToBash(raw.node, leaf);
  }

  method PassLogicNodeToBash(node: Json, leaf: Leaf) returns (r: Result<string, ConvError>)
    ensures r.Ok? <==> IsTreeOver(node, leaf)
    ensures r.Ok? ==> r.value == Render(ReadTree(node).value, LeafText(leaf))
    ensures r == NodeToBash(node, leaf)
    decreases node, 2
  {
    AcceptedTrees(node, leaf);
    hide IsTreeOver, Render, ReadTree;
    match node {
      case Str(s) => r := leaf(s);
      case Obj(fields) =>
        if |fields| != 1 {
          return Err(InvalidShape);
        }
        var op := OnlyKey(fields);
        var args := fields[op];
        match ToUpper(op) {
          case "AND" => r := JoinPassLogicChildren(args, leaf, " && ");
          case "OR" => r := JoinPassLogicChildren(args, leaf, " || ");
          case "NOT" => r := NotPassLogicChild(args, leaf);
          case _ => r := Err(UnknownOp(op));
        }
      case _ => r := Err(InvalidShape);
    }
  }

  method JoinPassLogicChildren(args: Json, leaf: Leaf, sep: string)
    returns (r: Result<string, ConvError>)
    ensures r == JoinChildren(args, leaf, sep)
    decreases args, 1
  {
    if !args.Arr? {
      return Err(InvalidShape);
    }
    if args.items == [] {
      return Err(EmptyArgs);
    }
    hide IsTreeOver, Render, ReadTree, NodeToBash;
    var parts: seq<string> := [];
    for i := 0 to |args.items|
      invariant Parts(args.items, i, leaf) == Ok(parts)
    {
      var s := PassLogicNodeToBash(args.items[i], leaf);
      if s.Err? {
        FirstErrorWins(args.items, i + 1, |args.items|, leaf);
        return s;
      }
      parts := parts + ["{ " + s.value + "; }"];
    }
    r := Ok(Join(parts, sep));
  }

  method NotPassLogicChild(args: Json, leaf: Leaf) returns (r: Result<string, ConvError>)
    ensures r.Ok? <==> args.Arr? && |args.items| == 1 && IsTreeOver(args.items[0], leaf)
    ensures r.Ok? ==> r.value == "! " + Braced(Render(ReadTree(args.items[0]).value, LeafText(leaf)))
    ensures r == NotChild(args, leaf)
    decreases args, 1
  {
    if !args.Arr? {
      return Err(InvalidShape);
    }
    if |args.items| != 1 {
      return Err(InvalidNotArgs);
    }
    r := PassLogicNodeToBash(args.items[0], leaf);
    if r.Ok? {
      r := Ok("! { " + r.value + "; }");
    }
  }

  lemma {:induction false} FirstErrorWins(items: seq<Json>, i: nat, n: nat, leaf: Leaf)
    requires i <= n <= |items|
    requires Parts(items, i, leaf).Err?
    ensures Parts(items, n, leaf) == Parts(items, i, leaf)
    decreases n
  {
    if i < n {
      FirstErrorWins(items, i, n - 1, leaf);
    }
  }

  // ---------------------------------------------------------------- what the tree means

  /** The tree that the pass_logic format describes, independent of any text. */
  datatype Tree = Cond(id: string) | All(kids: seq<Tree>) | Any(kids: seq<Tree>) | Neg(kid: Tree)

  function ReadTree(node: Json): Option<Tree> {
    match node
    case Str(s) => Some(Cond(s))
    case Obj(fields) =>
      if |fields| != 1 then None
      else
        var op := OnlyKey(fields);
        var args := fields[op];
        if !args.Arr? || args.items == [] then None
        else
          (match ReadKids(args.items)
           case None => None
           case Some(kids) =>
             (match ToUpper(op)
              case "AND" => Some(All(kids))
              case "OR" => Some(Any(kids))
              case "NOT" => if |kids| == 1 then Some(Neg(kids[0])) else None
              case _ => None))
    case _ => None
  }

  function ReadKids(items: seq<Json>): (r: Option<seq<Tree>>)
    ensures r.Some? ==> |r.value| == |items|
    ensures r.Some? <==> forall i :: 0 <= i < |items| ==> ReadTree(items[i]).Some?
    ensures r.Some? ==> forall i :: 0 <= i < |items| ==> ReadTree(items[i]) == Some(r.value[i])
  {
    if items == [] then Some([])
    else match ReadTree(items[0])
      case None => None
      case Some(t) =>
        assert forall i :: 1 <= i < |items| ==> items[i] == items[1..][i - 1];
        match ReadKids(items[1..])
        case None => None
        case Some(ts) => Some([t] + ts)
  }

  /** The truth of the tree when val says which conditions hold. */
  predicate Holds(t: Tree, val: string -> bool) {
    match t
    case Cond(id) => val(id)
    case All(kids) => forall k | k in kids :: Holds(k, val)
    case Any(kids) => exists k | k in kids :: Holds(k, val)
    case Neg(kid) => !Holds(kid, val)
  }

  /** Every AND and OR has at least one child. */
  predicate Proper(t: Tree) {
    match t
    case Cond(_) => true
    case All(kids) => kids != [] && forall k | k in kids :: Proper(k)
    case Any(kids) => kids != [] && forall k | k in kids :: Proper(k)
    case Neg(kid) => Proper(kid)
  }

  /** Every condition ID in the tree satisfies p. */
  predicate EveryLeaf(t: Tree, p: string -> bool) {
    match t
    case Cond(id) => p(id)
    case All(kids) => forall k | k in kids :: EveryLeaf(k, p)
    case Any(kids) => forall k | k in kids :: EveryLeaf(k, p)
    case Neg(kid) => EveryLeaf(kid, p)
  }

  /** The text of a tree whose leaves have the given texts. */
  function Render(t: Tree, text: string -> string): string
    decreases t, 1
  {
    match t
    case Cond(id) => text(id)
    case All(kids) => Join(RenderKids(kids, |kids|, text), " && ")
    case Any(kids) => Join(RenderKids(kids, |kids|, text), " || ")
    case Neg(kid) => "! " + Braced(Render(kid, text))
  }

  function Braced(s: string): string {
    "{ " + s + "; }"
  }

  function RenderKids(kids: seq<Tree>, n: nat, text: string -> string): (r: seq<string>)
    requires n <= |kids|
    ensures |r| == n
    decreases kids, 0, n
  {
    if n == 0 then [] else RenderKids(kids, n - 1, text) + [Braced(Render(kids[n - 1], text))]
  }

  // ---------------------------------------------------------------- acceptance

  function LeafText(leaf: Leaf): string -> string {
    id => if leaf(id).Ok? then leaf(id).value else ""
  }

  function LeafOk(leaf: Leaf): string -> bool {
    id => leaf(id).Ok?
  }

  /** The node is a tree of the format, and its leaves can all be translated. */
  predicate IsTreeOver(node: Json, leaf: Leaf) {
    ReadTree(node).Some? && EveryLeaf(ReadTree(node).value, LeafOk(leaf))
  }

  /** The two readings of a node agree: the text exists exactly when the node is a tree of the format
      whose leaves can all be translated, and then it is that tree's text. */
  ghost predicate Agrees(node: Json, leaf: Leaf) {
    && (NodeToBash(node, leaf).Ok? <==> IsTreeOver(node, leaf))
    && (NodeToBash(node, leaf).Ok? ==>
        && Proper(ReadTree(node).value)
        && NodeToBash(node, leaf).value == Render(ReadTree(node).value, LeafText(leaf)))
  }

  lemma {:induction false} AcceptedTrees(node: Json, leaf: Leaf)
    ensures Agrees(node, leaf)
  {
    if node.Obj? && |node.fields| == 1 {
      var op := OnlyKey(node.fields);
      var args := node.fields[op];
      if args.Arr? && args.items != [] {
        forall i | 0 <= i < |args.items| ensures Agrees(args.items[i], leaf) {
          AcceptedTrees(args.items[i], leaf);
        }
        ObjectAgrees(node, leaf);
      }
    }
  }

  lemma ObjectAgrees(node: Json, leaf: Leaf)
    requires node.Obj? && |node.fields| == 1
    requires node.fields[OnlyKey(node.fields)].Arr?
    requires node.fields[OnlyKey(node.fields)].items != []
    requires forall i :: 0 <= i < |node.fields[OnlyKey(node.fields)].items| ==>
      Agrees(node.fields[OnlyKey(node.fields)].items[i], leaf)
    ensures Agrees(node, leaf)
  {
    var op := OnlyKey(node.fields);
    var items := node.fields[op].items;
    if ToUpper(op) == "AND" || ToUpper(op) == "OR" {
      KidsAgree(items, leaf);
      ListAgrees(node, leaf);
    } else if ToUpper(op) == "NOT" {
      NotAgrees(node, leaf);
    }
  }

  lemma ListAgrees(node: Json, leaf: Leaf)
    requires node.Obj? && |node.fields| == 1
    requires ToUpper(OnlyKey(node.fields)) == "AND" || ToUpper(OnlyKey(node.fields)) == "OR"
    requires node.fields[OnlyKey(node.fields)].Arr? && node.fields[OnlyKey(node.fields)].items != []
    requires PartsFit(node.fields[OnlyKey(node.fields)].items, leaf)
    ensures Agrees(node, leaf)
  {
    var op := OnlyKey(node.fields);
    var items := node.fields[op].items;
    var sep := if ToUpper(op) == "AND" then " && " else " || ";
    assert NodeToBash(node, leaf) == JoinChildren(node.fields[op], leaf, sep);
    hide NodeToBash, Parts, RenderKids, ReadKids;
    if ReadTree(node).Some? {
      var kids := ReadKids(items).value;
      assert ReadTree(node).value == if ToUpper(op) == "AND" then All(kids) else Any(kids);
    }
  }

  /** The texts of the children are those of the trees they read as. */
  ghost predicate PartsFit(items: seq<Json>, leaf: Leaf) {
    && (Parts(items, |items|, leaf).Ok? <==>
        && ReadKids(items).Some?
        && forall k | k in ReadKids(items).value :: EveryLeaf(k, LeafOk(leaf)))
    && (Parts(items, |items|, leaf).Ok? ==>
        && (forall k | k in ReadKids(items).value :: Proper(k))
        && Parts(items, |items|, leaf).value
           == RenderKids(ReadKids(items).value, |items|, LeafText(leaf)))
  }

  lemma NotAgrees(node: Json, leaf: Leaf)
    requires node.Obj? && |node.fields| == 1
    requires ToUpper(OnlyKey(node.fields)) == "NOT" && node.fields[OnlyKey(node.fields)].Arr?
    requires node.fields[OnlyKey(node.fields)].items != []
    requires Agrees(node.fields[OnlyKey(node.fields)].items[0], leaf)
    ensures Agrees(node, leaf)
  {
    hide Parts, RenderKids;
    var items := node.fields[OnlyKey(node.fields)].items;
    assert NodeToBash(node, leaf) == NotChild(node.fields[OnlyKey(node.fields)], leaf);
    if |items| == 1 {
      assert ReadKids(items).Some? <==> ReadTree(items[0]).Some?;
    }
  }

  /** For a list of children that agree one by one. */
  lemma KidsAgree(items: seq<Json>, leaf: Leaf)
    requires forall i :: 0 <= i < |items| ==> Agrees(items[i], leaf)
    ensures PartsFit(items, leaf)
  {
    PartsAgree(items, |items|, leaf);
    if Parts(items, |items|, leaf).Ok? {
      assert forall i :: 0 <= i < |items| ==> NodeToBash(items[i], leaf).Ok? && Agrees(items[i], leaf);
    } else if ReadKids(items).Some? {
      var i :| 0 <= i < |items| && !NodeToBash(items[i], leaf).Ok?;
      assert Agrees(items[i], leaf);
      assert ReadKids(items).value[i] in ReadKids(items).value;
    }
  }

  lemma {:induction false} PartsAgree(items: seq<Json>, n: nat, leaf: Leaf)
    requires n <= |items|
    requires forall i :: 0 <= i < |items| ==> Agrees(items[i], leaf)
    ensures Parts(items, n, leaf).Ok? <==> forall i :: 0 <= i < n ==> NodeToBash(items[i], leaf).Ok?
    ensures Parts(items, n, leaf).Ok? && ReadKids(items).Some? ==>
              Parts(items, n, leaf).value == RenderKids(ReadKids(items).value, n, LeafText(leaf))
    decreases n
  {
    hide NodeToBash, Render, ReadTree, ReadKids, Agrees;
    if n > 0 {
      PartsAgree(items, n - 1, leaf);
      AgreesGives(items[n - 1], leaf);
    }
  }

  lemma AgreesGives(node: Json, leaf: Leaf)
    requires Agrees(node, leaf)
    ensures NodeToBash(node, leaf).Ok? ==>
              ReadTree(node).Some? && NodeToBash(node, leaf).value == Render(ReadTree(node).value, LeafText(leaf))
  {
    hide NodeToBash, Render;
  }
}
