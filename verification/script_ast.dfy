/** The slice of the TypeScript syntax tree the script rewriter inspects.
    Node ids stand in for JavaScript object identity: the parser gives every
    node a distinct `Src` id, and nodes the rewriter creates are `Synth`. */
module ScriptAst {

  datatype NodeId = Src(n: nat) | Synth

  /** Operator token of a binary expression: `=`, `+`, or any other. */
  datatype BinOp = EqAssign | Plus | OtherOp(token: string)

  datatype Expr =
    | This(id: NodeId)
    | Ident(id: NodeId, name: string)
    | StrLit(id: NodeId, text: string)
      /** Any other syntax kind (numeric literal, block, method declaration,
          object literal, ...) with its child nodes in source order. */
    | Other(id: NodeId, tag: string, kids: seq<Expr>)
    | Prop(id: NodeId, obj: Expr, name: string)
    | Elem(id: NodeId, obj: Expr, key: Expr)
    | Paren(id: NodeId, inner: Expr)
    | Binary(id: NodeId, op: BinOp, left: Expr, right: Expr)
    | Call(id: NodeId, callee: Expr, args: seq<Expr>)

  /** The TypeErrors the script rewriter can raise: `dataPathSeg[0]` read
      on an empty segment list, and `x.name.escapedText` read on an
      options-literal member that has no name (a spread). */
  datatype ScriptError = NoPathSegments | MemberWithoutName

  /** Property access or element access: the links of an access chain. */
  predicate IsAccess(e: Expr) {
    e.Prop? || e.Elem?
  }

  /** Child nodes in the order `ts.forEachChild` visits them. A property
      access's name is an identifier node and is not listed: it can never be
      `this` nor a replacement origin. */
  function Kids(e: Expr): (ks: seq<Expr>)
    ensures forall k :: k in ks ==> k < e
  {
    match e
    case This(_) => []
    case Ident(_, _) => []
    case StrLit(_, _) => []
    case Other(_, _, kids) => kids
    case Prop(_, o, _) => [o]
    case Elem(_, o, k) => [o, k]
    case Paren(_, x) => [x]
    case Binary(_, _, l, r) => [l, r]
    case Call(_, c, args) => [c] + args
  }

  /** The node `e` with its children replaced, as `ts.visitEachChild`
      rebuilds a node whose children changed. */
  function WithKids(e: Expr, ks: seq<Expr>): (r: Expr)
    requires |ks| == |Kids(e)|
    ensures Kids(r) == ks && r.id == e.id
    ensures IsAccess(r) == IsAccess(e)
  {
    match e
    case This(_) => e
    case Ident(_, _) => e
    case StrLit(_, _) => e
    case Other(id, tag, _) => Other(id, tag, ks)
    case Prop(id, _, name) => Prop(id, ks[0], name)
    case Elem(id, _, _) => Elem(id, ks[0], ks[1])
    case Paren(id, _) => Paren(id, ks[0])
    case Binary(id, op, _, _) => Binary(id, op, ks[0], ks[1])
    case Call(id, _, _) => Call(id, ks[0], ks[1..])
  }

  /** A non-empty suffix is its first element followed by the rest. */
  lemma SuffixCons<T>(s: seq<T>, i: nat)
    requires i < |s|
    ensures s[i..] == [s[i]] + s[i + 1..]
  {
  }

  lemma WithOwnKids(e: Expr)
    ensures WithKids(e, Kids(e)) == e
  {
  }

  /** Ids of every node of the tree rooted at `e`. */
  function Ids(e: Expr): set<NodeId>
    decreases e, 1
  {
    {e.id} + IdsFrom(e, 0)
  }

  /** Ids of the subtrees `Kids(e)[i..]`. */
  function IdsFrom(e: Expr, i: nat): set<NodeId>
    requires i <= |Kids(e)|
    decreases e, 0, |Kids(e)| - i
  {
    if i == |Kids(e)| then {} else Ids(Kids(e)[i]) + IdsFrom(e, i + 1)
  }

  lemma IdsFromCons(e: Expr, i: nat)
    requires i < |Kids(e)|
    ensures IdsFrom(e, i) == Ids(Kids(e)[i]) + IdsFrom(e, i + 1)
  {
  }

  /** Every node of the tree carries its own id, as distinct parsed objects do. */
  ghost predicate UniqueIds(e: Expr)
    decreases e, 1
  {
    && e.id !in IdsFrom(e, 0)
    && UniqueIdsFrom(e, 0)
  }

  ghost predicate UniqueIdsFrom(e: Expr, i: nat)
    requires i <= |Kids(e)|
    decreases e, 0, |Kids(e)| - i
  {
    i < |Kids(e)| ==>
      && UniqueIds(Kids(e)[i])
      && Ids(Kids(e)[i]) !! IdsFrom(e, i + 1)
      && UniqueIdsFrom(e, i + 1)
  }
}
