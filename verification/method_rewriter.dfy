/** `modifyVueMethods` and the three replacement shapes: every `this`
    access chain in a method body becomes a call on `this.data`. */
module MethodRewriter {
  import opened Results
  import opened ScriptAst
  import opened AccessPath
  import opened AccessorFinder
  import opened AccessorReplacer

  /** Callee names treated as array mutations. */
  const ArrayMethods: seq<string> := ["push", "pop", "unshift", "shift", "remove", "removeAt", "splice"]

  /** The callee `this.data.<m>`, built from fresh nodes. */
  function DataMember(m: string): Expr {
    Prop(Synth, Prop(Synth, This(Synth), "data"), m)
  }

  /** `getPropertyToGetData`: `this.data.get(path)`. */
  function GetPropertyToGetData(ast: Expr): (r: Result<Expr, ScriptError>)
    ensures r.Err? <==> !IsAccess(ast)
  {
    var path :- PathOf(ast);
    Ok(Call(Synth, DataMember("get"), [path]))
  }

  /** `setPropertyToSetData`: `this.data.set(path(left), right)`, with the
      right-hand side reused as it is. */
  function SetPropertyToSetData(ast: Expr): (r: Result<Expr, ScriptError>)
    requires ast.Binary?
    ensures r.Err? <==> !IsAccess(ast.left)
    ensures r.Ok? ==> r.value.Call? && |r.value.args| == 2 && r.value.args[1] == ast.right
  {
    var path :- PathOf(ast.left);
    Ok(Call(Synth, DataMember("set"), [path, ast.right]))
  }

  /** `arrayOperatorToArrayData`: `recv.m(args)` becomes
      `this.data.m(path(recv), args)`. */
  function ArrayOperatorToArrayData(ast: Expr): (r: Result<Expr, ScriptError>)
    requires ast.Call? && ast.callee.Prop?
    ensures r.Err? <==> !IsAccess(ast.callee.obj)
    ensures r.Ok? ==> r.value.Call? && |r.value.args| >= 1 && r.value.args[1..] == ast.args
  {
    var path :- PathOf(ast.callee.obj);
    Ok(Call(Synth, DataMember(ast.callee.name), [path] + ast.args))
  }

  predicate IsPlainAssignment(parent: Option<Expr>) {
    parent.Some? && parent.value.Binary? && parent.value.op == EqAssign
  }

  /** The anchor is the callee of its parent call (compared by identity). */
  predicate IsCalleeOf(a: Anchor) {
    a.parent.Some? && a.parent.value.Call? && a.parent.value.callee.id == a.node.id
  }

  /** One iteration of the classification loop. The assignment test looks
      only at the operator, not at which side the anchor is on. */
  function Classify(a: Anchor): (r: Result<Option<Replacement>, ScriptError>)
    ensures r.Err? ==> r.error == NoPathSegments
  {
    if IsPlainAssignment(a.parent) then
      var m :- SetPropertyToSetData(a.parent.value);
      Ok(Some(Replacement(a.parent.value.id, m)))
    else if IsCalleeOf(a) then
      var call := a.parent.value;
      if call.callee.Prop? && call.callee.name in ArrayMethods then
        var m :- ArrayOperatorToArrayData(call);
        Ok(Some(Replacement(call.id, m)))
      else Ok(None)
    else
      var m :- GetPropertyToGetData(a.node);
      Ok(Some(Replacement(a.node.id, m)))
  }

  /** The loop over all anchors, in order; the first TypeError escapes. */
  function ClassifyAll(anchors: seq<Anchor>): (r: Result<seq<Replacement>, ScriptError>)
    ensures r.Err? ==> r.error == NoPathSegments
    ensures r.Ok? ==> |r.value| <= |anchors|
  {
    if |anchors| == 0 then Ok([])
    else
      var r :- Classify(anchors[0]);
      var rest :- ClassifyAll(anchors[1..]);
      Ok((if r.Some? then [r.value] else []) + rest)
  }

  /** `modifyVueMethods(method)` on the method node `decl`. */
  function ModifyVueMethods(decl: Expr): (r: Result<Expr, ScriptError>)
    ensures r.Err? ==> r.error == NoPathSegments
  {
    var pairs :- ClassifyAll(MarkThisAnchors(decl));
    Ok(ReplaceAccessors(decl, pairs))
  }

  // ---------------------------------------------------------------------
  // What a replacement means

  /** The three readings of an access chain. */
  datatype AccessKind = Read | Write | Mutate(callName: string) | LeftAlone

  /** How `modifyVueMethods` reads an anchor from its parent node. */
  function KindOf(a: Anchor): AccessKind {
    if IsPlainAssignment(a.parent) then Write
    else if IsCalleeOf(a) then
      (if a.parent.value.callee.Prop? && a.parent.value.callee.name in ArrayMethods
       then Mutate(a.parent.value.callee.name) else LeftAlone)
    else Read
  }

  /** Recognise a generated call `this.data.<m>(args)`. */
  function DataCall(e: Expr): Option<(string, seq<Expr>)> {
    if e.Call? && e.callee.Prop? && e.callee.obj.Prop? && e.callee.obj.obj.This?
       && e.callee.obj.name == "data"
    then Some((e.callee.name, e.args))
    else None
  }

  /** The chain whose path a replacement carries: the anchor for a read or a
      mutation's receiver chain, the assignment's left side for a write. */
  function PathSource(a: Anchor): Expr
    requires KindOf(a) != LeftAlone
  {
    match KindOf(a)
    case Write => a.parent.value.left
    case Mutate(_) => a.parent.value.callee.obj
    case Read => a.node
  }

  /** Classification picks exactly one reading per anchor. A read, write or
      mutation becomes a `this.data` call of the matching method whose first
      argument is the path of the chain, evaluating to its segment values
      joined by `.`; a write keeps the assigned value and a mutation the
      original arguments. It fails exactly when that chain is empty. */
  lemma ClassifyMeaning(a: Anchor, env: Expr -> string)
    requires IsAccess(a.node)
    ensures KindOf(a) == LeftAlone <==> Classify(a) == Ok(None)
    ensures KindOf(a) != LeftAlone ==>
      (Classify(a).Err? <==> !IsAccess(PathSource(a)))
    ensures KindOf(a) != LeftAlone && Classify(a).Ok? ==>
      && Classify(a).value.Some?
      && var r := Classify(a).value.value;
      && DataCall(r.modified).Some?
      && var (m, args) := DataCall(r.modified).value;
      && |args| >= 1
      && PathValue(args[0], env) == JoinDot(SegValues(SegsOf(PathSource(a)), env))
      && match KindOf(a)
         case Read => m == "get" && |args| == 1 && r.origin == a.node.id
         case Write => m == "set" && args[1..] == [a.parent.value.right] && r.origin == a.parent.value.id
         case Mutate(name) => m == name && args[1..] == a.parent.value.args && r.origin == a.parent.value.id
         case LeftAlone => false
  {
    if KindOf(a) != LeftAlone && IsAccess(PathSource(a)) {
      PathEvaluatesToDottedPath(SegsOf(PathSource(a)), env);
    }
  }

  /** A method without any `this` access chain is returned as it is. */
  lemma UnchangedWithoutThisAccess(decl: Expr)
    requires CountThisUnderAccess(decl, false) == 0
    ensures ModifyVueMethods(decl) == Ok(decl)
  {
    OneAnchorPerAccessedThis(decl);
    assert MarkThisAnchors(decl) == [];
    ReplaceUnmatched(decl, []);
  }

  // ---------------------------------------------------------------------
  // Scenarios of test/test.ts, each inside an expression statement

  function Stmt(e: Expr): Expr {
    Other(Src(0), "ExpressionStatement", [e])
  }

  const One: Expr := Other(Src(9), "NumericLiteral", [])

  /** Visiting a statement's single child threads the pending pairs. */
  lemma {:induction false} StmtStep(e: Expr, todo: seq<Replacement>)
    ensures ReplaceFrom(Stmt(e), 0, todo).0 == [Replace(e, todo).0]
    ensures ReplaceFrom(Stmt(e), 0, todo).1 == Replace(e, todo).1
  {
    assert Kids(Stmt(e)) == [e];
    var (k, rest) := Replace(e, todo);
    assert ReplaceFrom(Stmt(e), 1, rest) == ([], rest);
  }

  /** A statement whose expression is the origin of every pending pair. */
  lemma {:induction false} ReplaceInStmt(e: Expr, todo: seq<Replacement>)
    requires |todo| > 0 && e.id != Src(0)
    requires forall j :: 0 <= j < |todo| ==> todo[j].origin == e.id
    ensures Replace(Stmt(e), todo).0 == Stmt(todo[0].modified)
    ensures Replace(Stmt(e), todo).1 == todo[1..]
  {
    NoMatchWhenOtherOrigin(todo, e.id, Src(0));
    assert RemoveAt(todo, 0) == todo[1..];
    StmtStep(e, todo);
  }

  lemma {:induction false} NoMatchWhenOtherOrigin(todo: seq<Replacement>, id: NodeId, other: NodeId)
    requires id != other
    requires forall j :: 0 <= j < |todo| ==> todo[j].origin == id
    ensures FirstMatch(todo, other) == |todo|
  {
    if |todo| > 0 {
      NoMatchWhenOtherOrigin(todo[1..], id, other);
    }
  }

  lemma ClassifyOne(a: Anchor, r: Replacement)
    requires Classify(a) == Ok(Some(r))
    ensures ClassifyAll([a]) == Ok([r])
  {
    assert [a][1..] == [];
    assert ClassifyAll([]) == Ok([]);
    assert [r] + [] == [r];
  }

  /** The pass over a method whose anchors classify without error. */
  lemma MethodsFromPairs(decl: Expr, anchors: seq<Anchor>, pairs: seq<Replacement>)
    requires MarkThisAnchors(decl) == anchors && ClassifyAll(anchors) == Ok(pairs)
    ensures ModifyVueMethods(decl) == Ok(Replace(decl, pairs).0)
  {
  }

  /** A method statement with a single anchor that classifies to a pair
      becomes that pair's modified expression. */
  lemma SingleAnchorRewrite(e: Expr, a: Anchor, p: Replacement)
    requires e.id != Src(0) && p.origin == e.id
    requires MarkThisAnchors(Stmt(e)) == [a] && ClassifyAll([a]) == Ok([p])
    ensures ModifyVueMethods(Stmt(e)) == Ok(Stmt(p.modified))
  {
    MethodsFromPairs(Stmt(e), [a], [p]);
    ReplaceInStmt(e, [p]);
  }

  /** `this.some` becomes `this.data.get('some')`. */
  lemma ReadExample()
    ensures ModifyVueMethods(Stmt(Prop(Src(1), This(Src(2)), "some")))
            == Ok(Stmt(Call(Synth, DataMember("get"), [StrLit(Synth, "some")])))
  {
    var x := Prop(Src(1), This(Src(2)), "some");
    var a := Anchor(x, Some(Stmt(x)));
    var p := Replacement(Src(1), Call(Synth, DataMember("get"), [StrLit(Synth, "some")]));
    ReadAnchors(x);
    ReadClassified(x, a, p);
    SingleAnchorRewrite(x, a, p);
  }

  lemma ReadAnchors(x: Expr)
    requires x == Prop(Src(1), This(Src(2)), "some")
    ensures MarkThisAnchors(Stmt(x)) == [Anchor(x, Some(Stmt(x)))]
  {
    MarkThisMatchesReference(Stmt(x));
    assert Collect(x, None, Some(Stmt(x))) == [Anchor(x, Some(Stmt(x)))];
    assert CollectFrom(Stmt(x), 0, None) == [Anchor(x, Some(Stmt(x)))];
  }

  lemma ReadClassified(x: Expr, a: Anchor, p: Replacement)
    requires x == Prop(Src(1), This(Src(2)), "some") && a == Anchor(x, Some(Stmt(x)))
    requires p == Replacement(Src(1), Call(Synth, DataMember("get"), [StrLit(Synth, "some")]))
    ensures ClassifyAll([a]) == Ok([p])
  {
    assert SegsOf(x) == [Lit("some")];
    assert GetPropertyToGetData(x) == Ok(p.modified);
    assert !IsPlainAssignment(a.parent) && !IsCalleeOf(a);
    ClassifyOne(a, p);
  }

  /** `this.some = 1` becomes `this.data.set('some', 1)`. */
  lemma WriteExample()
    ensures ModifyVueMethods(Stmt(Binary(Src(1), EqAssign, Prop(Src(2), This(Src(3)), "some"), One)))
            == Ok(Stmt(Call(Synth, DataMember("set"), [StrLit(Synth, "some"), One])))
  {
    var x := Prop(Src(2), This(Src(3)), "some");
    var b := Binary(Src(1), EqAssign, x, One);
    var a := Anchor(x, Some(b));
    var p := Replacement(Src(1), Call(Synth, DataMember("set"), [StrLit(Synth, "some"), One]));
    WriteAnchors(x, b);
    WriteClassified(x, b, a, p);
    SingleAnchorRewrite(b, a, p);
  }

  lemma WriteAnchors(x: Expr, b: Expr)
    requires x == Prop(Src(2), This(Src(3)), "some") && b == Binary(Src(1), EqAssign, x, One)
    ensures MarkThisAnchors(Stmt(b)) == [Anchor(x, Some(b))]
  {
    MarkThisMatchesReference(Stmt(b));
    assert Collect(x, None, Some(b)) == [Anchor(x, Some(b))];
    assert CollectFrom(b, 0, None) == [Anchor(x, Some(b))];
    assert CollectFrom(Stmt(b), 0, None) == [Anchor(x, Some(b))];
  }

  lemma WriteClassified(x: Expr, b: Expr, a: Anchor, p: Replacement)
    requires x == Prop(Src(2), This(Src(3)), "some") && b == Binary(Src(1), EqAssign, x, One)
    requires a == Anchor(x, Some(b))
    requires p == Replacement(Src(1), Call(Synth, DataMember("set"), [StrLit(Synth, "some"), One]))
    ensures ClassifyAll([a]) == Ok([p])
  {
    assert SegsOf(x) == [Lit("some")];
    assert PathOf(x) == Ok(StrLit(Synth, "some"));
    assert IsPlainAssignment(a.parent);
    assert SetPropertyToSetData(b) == Ok(p.modified);
    assert Classify(a) == Ok(Some(p));
    ClassifyOne(a, p);
  }

  /** `this.some.push(1)` becomes `this.data.push('some', 1)`. */
  lemma MutateExample()
    ensures ModifyVueMethods(Stmt(Call(Src(1), Prop(Src(2), Prop(Src(3), This(Src(4)), "some"), "push"), [One])))
            == Ok(Stmt(Call(Synth, DataMember("push"), [StrLit(Synth, "some"), One])))
  {
    var recv := Prop(Src(3), This(Src(4)), "some");
    var x := Prop(Src(2), recv, "push");
    var c := Call(Src(1), x, [One]);
    var a := Anchor(x, Some(c));
    var p := Replacement(Src(1), Call(Synth, DataMember("push"), [StrLit(Synth, "some"), One]));
    MutateAnchors(recv, x, c);
    MutateClassified(recv, x, c, a, p);
    SingleAnchorRewrite(c, a, p);
  }

  lemma MutateAnchors(recv: Expr, x: Expr, c: Expr)
    requires recv == Prop(Src(3), This(Src(4)), "some") && x == Prop(Src(2), recv, "push")
    requires c == Call(Src(1), x, [One])
    ensures MarkThisAnchors(Stmt(c)) == [Anchor(x, Some(c))]
  {
    MarkThisMatchesReference(Stmt(c));
    var a := Anchor(x, Some(c));
    assert Collect(recv, Some(a), Some(x)) == [a];
    assert Collect(x, None, Some(c)) == [a];
    assert CollectFrom(c, 1, None) == [];
    assert CollectFrom(c, 0, None) == [a];
    assert CollectFrom(Stmt(c), 0, None) == [a];
  }

  lemma MutateClassified(recv: Expr, x: Expr, c: Expr, a: Anchor, p: Replacement)
    requires recv == Prop(Src(3), This(Src(4)), "some") && x == Prop(Src(2), recv, "push")
    requires c == Call(Src(1), x, [One]) && a == Anchor(x, Some(c))
    requires p == Replacement(Src(1), Call(Synth, DataMember("push"), [StrLit(Synth, "some"), One]))
    ensures ClassifyAll([a]) == Ok([p])
  {
    assert "push" in ArrayMethods;
    assert SegsOf(recv) == [Lit("some")];
    assert PathOf(recv) == Ok(StrLit(Synth, "some"));
    assert IsCalleeOf(a) && !IsPlainAssignment(a.parent);
    assert [StrLit(Synth, "some")] + [One] == [StrLit(Synth, "some"), One];
    assert ArrayOperatorToArrayData(c) == Ok(p.modified);
    assert Classify(a) == Ok(Some(p));
    ClassifyOne(a, p);
  }

  /** `console.log(this.some)` becomes `console.log(this.data.get('some'))`:
      the chain is an argument, not the callee, so it is read. */
  lemma LogExample(callee: Expr, x: Expr)
    requires callee == Prop(Src(2), Ident(Src(3), "console"), "log")
    requires x == Prop(Src(4), This(Src(5)), "some")
    ensures ModifyVueMethods(Stmt(Call(Src(1), callee, [x])))
            == Ok(Stmt(Call(Src(1), callee, [Call(Synth, DataMember("get"), [StrLit(Synth, "some")])])))
  {
    var c := Call(Src(1), callee, [x]);
    var a := Anchor(x, Some(c));
    var p := Replacement(Src(4), Call(Synth, DataMember("get"), [StrLit(Synth, "some")]));
    LogAnchors(callee, x, c);
    LogClassified(callee, x, c, a, p);
    MethodsFromPairs(Stmt(c), [a], [p]);
    LogReplaced(callee, x, c, p);
  }

  lemma LogAnchors(callee: Expr, x: Expr, c: Expr)
    requires callee == Prop(Src(2), Ident(Src(3), "console"), "log")
    requires x == Prop(Src(4), This(Src(5)), "some") && c == Call(Src(1), callee, [x])
    ensures MarkThisAnchors(Stmt(c)) == [Anchor(x, Some(c))]
  {
    MarkThisMatchesReference(Stmt(c));
    var a := Anchor(x, Some(c));
    assert Collect(callee, None, Some(c)) == [];
    assert Collect(x, None, Some(c)) == [a];
    assert CollectFrom(c, 1, None) == [a];
    assert CollectFrom(c, 0, None) == [a];
    assert CollectFrom(Stmt(c), 0, None) == [a];
  }

  lemma LogClassified(callee: Expr, x: Expr, c: Expr, a: Anchor, p: Replacement)
    requires callee == Prop(Src(2), Ident(Src(3), "console"), "log")
    requires x == Prop(Src(4), This(Src(5)), "some") && c == Call(Src(1), callee, [x])
    requires a == Anchor(x, Some(c))
    requires p == Replacement(Src(4), Call(Synth, DataMember("get"), [StrLit(Synth, "some")]))
    ensures ClassifyAll([a]) == Ok([p])
  {
    assert SegsOf(x) == [Lit("some")];
    assert GetPropertyToGetData(x) == Ok(p.modified);
    assert !IsPlainAssignment(a.parent) && !IsCalleeOf(a);
    ClassifyOne(a, p);
  }

  lemma LogReplaced(callee: Expr, x: Expr, c: Expr, p: Replacement)
    requires callee == Prop(Src(2), Ident(Src(3), "console"), "log")
    requires x == Prop(Src(4), This(Src(5)), "some") && c == Call(Src(1), callee, [x])
    requires p.origin == Src(4)
    ensures Replace(Stmt(c), [p]).0 == Stmt(Call(Src(1), callee, [p.modified]))
  {
    ArgumentRewrite(c, p);
  }

  /** In a statement `f(arg)` whose only pending pair has the argument as
      its origin, the argument alone is replaced. */
  lemma ArgumentRewrite(c: Expr, p: Replacement)
    requires c.Call? && |c.args| == 1 && c.args[0].id == p.origin
    requires p.origin != Src(0) && p.origin != c.id && p.origin !in Ids(c.callee)
    ensures Replace(Stmt(c), [p]).0 == Stmt(Call(c.id, c.callee, [p.modified]))
  {
    var m := p.modified;
    assert Origins([p]) == {p.origin};
    ReplaceUnmatched(c.callee, [p]);
    assert Kids(c) == [c.callee, c.args[0]];
    assert Replace(c.args[0], [p]) == (m, []) by {
      assert RemoveAt([p], 0) == [];
    }
    assert ReplaceFrom(c, 2, []) == ([], []);
    assert Kids(c)[1] == c.args[0] && [m] + [] == [m];
    assert ReplaceFrom(c, 1, [p]) == ([m], []);
    assert Kids(c)[0] == c.callee && Replace(c.callee, [p]) == (c.callee, [p]);
    assert [c.callee] + [m] == [c.callee, m];
    assert ReplaceFrom(c, 0, [p]) == ([c.callee, m], []);
    assert Replace(c, [p]).0 == Call(c.id, c.callee, [m]);
    StmtStep(c, [p]);
  }

  /** `a = this.b`: the chain sits on the right, yet the assignment branch is
      taken and the path of the identifier `a` has no segment, so the source
      throws. */
  lemma ChainOnRightOfAssignmentFails()
    ensures ModifyVueMethods(Stmt(Binary(Src(1), EqAssign, Ident(Src(2), "a"), Prop(Src(3), This(Src(4)), "b"))))
            == Err(NoPathSegments)
  {
    var x := Prop(Src(3), This(Src(4)), "b");
    var b := Binary(Src(1), EqAssign, Ident(Src(2), "a"), x);
    RightChainAnchors(x, b);
  }

  lemma RightChainAnchors(x: Expr, b: Expr)
    requires x == Prop(Src(3), This(Src(4)), "b") && b == Binary(Src(1), EqAssign, Ident(Src(2), "a"), x)
    ensures MarkThisAnchors(Stmt(b)) == [Anchor(x, Some(b))]
  {
    MarkThisMatchesReference(Stmt(b));
    assert Collect(x, None, Some(b)) == [Anchor(x, Some(b))];
    assert CollectFrom(b, 1, None) == [Anchor(x, Some(b))];
    assert CollectFrom(b, 0, None) == [Anchor(x, Some(b))];
    assert CollectFrom(Stmt(b), 0, None) == [Anchor(x, Some(b))];
  }

  /** `this.a = this.b`: both chains find the assignment as parent, so the
      same pair is produced twice. */
  lemma {:induction false} DoubleAssignmentYieldsPairTwice()
    ensures
      var rhs := Prop(Src(4), This(Src(5)), "b");
      var b := Binary(Src(1), EqAssign, Prop(Src(2), This(Src(3)), "a"), rhs);
      var r := Replacement(Src(1), Call(Synth, DataMember("set"), [StrLit(Synth, "a"), rhs]));
      ClassifyAll(MarkThisAnchors(Stmt(b))) == Ok([r, r])
  {
    var lhs := Prop(Src(2), This(Src(3)), "a");
    var rhs := Prop(Src(4), This(Src(5)), "b");
    var b := Binary(Src(1), EqAssign, lhs, rhs);
    var r := Replacement(Src(1), Call(Synth, DataMember("set"), [StrLit(Synth, "a"), rhs]));
    DoubleAnchors(lhs, rhs, b);
    DoubleClassified(lhs, rhs, b, r);
  }

  lemma DoubleAnchors(lhs: Expr, rhs: Expr, b: Expr)
    requires lhs == Prop(Src(2), This(Src(3)), "a") && rhs == Prop(Src(4), This(Src(5)), "b")
    requires b == Binary(Src(1), EqAssign, lhs, rhs)
    ensures MarkThisAnchors(Stmt(b)) == [Anchor(lhs, Some(b)), Anchor(rhs, Some(b))]
  {
    MarkThisMatchesReference(Stmt(b));
    DoubleCollect(lhs, rhs, b);
  }

  lemma DoubleCollect(lhs: Expr, rhs: Expr, b: Expr)
    requires lhs == Prop(Src(2), This(Src(3)), "a") && rhs == Prop(Src(4), This(Src(5)), "b")
    requires b == Binary(Src(1), EqAssign, lhs, rhs)
    ensures Collect(Stmt(b), None, None) == [Anchor(lhs, Some(b)), Anchor(rhs, Some(b))]
  {
    var al := Anchor(lhs, Some(b));
    var ar := Anchor(rhs, Some(b));
    assert Collect(lhs, None, Some(b)) == [al];
    assert Collect(rhs, None, Some(b)) == [ar];
    assert CollectFrom(b, 1, None) == [ar];
    assert CollectFrom(b, 0, None) == [al, ar];
    assert CollectFrom(Stmt(b), 0, None) == [al, ar];
  }

  lemma DoubleClassified(lhs: Expr, rhs: Expr, b: Expr, r: Replacement)
    requires lhs == Prop(Src(2), This(Src(3)), "a") && rhs == Prop(Src(4), This(Src(5)), "b")
    requires b == Binary(Src(1), EqAssign, lhs, rhs)
    requires r == Replacement(Src(1), Call(Synth, DataMember("set"), [StrLit(Synth, "a"), rhs]))
    ensures ClassifyAll([Anchor(lhs, Some(b)), Anchor(rhs, Some(b))]) == Ok([r, r])
  {
    var al := Anchor(lhs, Some(b));
    var ar := Anchor(rhs, Some(b));
    assert SegsOf(lhs) == [Lit("a")];
    assert PathOf(lhs) == Ok(StrLit(Synth, "a"));
    assert Classify(al) == Ok(Some(r));
    assert Classify(ar) == Ok(Some(r));
    ClassifyOne(ar, r);
    assert [al, ar][1..] == [ar];
    assert [r] + [r] == [r, r];
  }

  /** The pass consumes one of the two equal pairs at the assignment, leaves
      the other pending (and later dropped), and the right side keeps its
      un-rewritten `this.b`. */
  lemma {:induction false} DoubleAssignmentLeavesPairPending()
    ensures
      var rhs := Prop(Src(4), This(Src(5)), "b");
      var b := Binary(Src(1), EqAssign, Prop(Src(2), This(Src(3)), "a"), rhs);
      var r := Replacement(Src(1), Call(Synth, DataMember("set"), [StrLit(Synth, "a"), rhs]));
      && Replace(Stmt(b), [r, r]).0 == Stmt(r.modified)
      && Replace(Stmt(b), [r, r]).1 == [r]
  {
    var rhs := Prop(Src(4), This(Src(5)), "b");
    var b := Binary(Src(1), EqAssign, Prop(Src(2), This(Src(3)), "a"), rhs);
    var r := Replacement(Src(1), Call(Synth, DataMember("set"), [StrLit(Synth, "a"), rhs]));
    ReplaceInStmt(b, [r, r]);
    assert [r, r][1..] == [r];
  }
}
