/** `propertyAccessToDataOPath`: the dotted data path of a `this`-rooted
    access chain, as one string literal or a `+` chain of literals and
    dynamic keys. */
module AccessPath {
  import opened Results
  import opened ScriptAst

  /** One link of a chain: a static name (property name or string-literal
      key) or a dynamic key expression. */
  datatype Seg = Lit(name: string) | Dyn(key: Expr)

  /** A dynamic segment never holds a string literal: those become `Lit`. */
  predicate WellFormedSegs(segs: seq<Seg>) {
    forall i :: 0 <= i < |segs| ==> segs[i].Dyn? ==> !segs[i].key.StrLit?
  }

  /** The segments of the access chain ending at `e`, innermost first; the
      non-access base of the chain is not inspected. */
  function SegsOf(e: Expr): (segs: seq<Seg>)
    ensures |segs| > 0 <==> IsAccess(e)
    ensures WellFormedSegs(segs)
  {
    match e
    case Prop(_, o, n) => SegsOf(o) + [Lit(n)]
    case Elem(_, o, k) => SegsOf(o) + [if k.StrLit? then Lit(k.text) else Dyn(k)]
    case _ => []
  }

  /** The source's loop: walk from the outermost access inward, `unshift`ing
      each segment, so the collected order is source order. */
  method CollectSegments(ast: Expr) returns (segs: seq<Seg>)
    ensures segs == SegsOf(ast)
  {
    segs := [];
    var lookFor := ast;
    while IsAccess(lookFor)
      invariant SegsOf(ast) == SegsOf(lookFor) + segs
      decreases lookFor
    {
      if lookFor.Prop? {
        segs := [Lit(lookFor.name)] + segs;
      } else if lookFor.key.StrLit? {
        segs := [Lit(lookFor.key.text)] + segs;
      } else {
        segs := [Dyn(lookFor.key)] + segs;
      }
      lookFor := lookFor.obj;
    }
  }

  /** The accumulator the first segment starts: a literal, or a
      parenthesised copy of the key. */
  function Seed(s: Seg): Expr {
    match s
    case Lit(n) => StrLit(Synth, n)
    case Dyn(k) => Paren(Synth, k)
  }

  /** One step of the builder loop: merge into a literal accumulator, or
      extend an expression accumulator with `+`. */
  function Extend(acc: Expr, s: Seg): Expr {
    match s
    case Lit(n) =>
      if acc.StrLit? then StrLit(acc.id, acc.text + "." + n)
      else Binary(Synth, Plus, acc, StrLit(Synth, "." + n))
    case Dyn(k) =>
      if acc.StrLit? then Binary(Synth, Plus, StrLit(Synth, acc.text + "."), k)
      else Binary(Synth, Plus, Binary(Synth, Plus, acc, StrLit(Synth, ".")), k)
  }

  /** The path expression of a non-empty segment list (`dataPathSeg[0]` is
      read unguarded, so the source needs at least one segment). */
  function BuildPath(segs: seq<Seg>): Expr
    requires |segs| > 0
  {
    if |segs| == 1 then Seed(segs[0])
    else Extend(BuildPath(segs[..|segs| - 1]), segs[|segs| - 1])
  }

  /** `propertyAccessToDataOPath(e)`: fails exactly when the chain is empty. */
  function PathOf(e: Expr): (r: Result<Expr, ScriptError>)
    ensures r.Err? <==> !IsAccess(e)
    ensures r.Err? ==> r.error == NoPathSegments
  {
    var segs := SegsOf(e);
    if |segs| == 0 then Err(NoPathSegments) else Ok(BuildPath(segs))
  }

  // ---------------------------------------------------------------------
  // Reference semantics of a path

  /** `xs` joined with `.`. */
  function JoinDot(xs: seq<string>): string
    requires |xs| > 0
  {
    if |xs| == 1 then xs[0] else JoinDot(xs[..|xs| - 1]) + "." + xs[|xs| - 1]
  }

  function Names(segs: seq<Seg>): seq<string>
    requires forall i :: 0 <= i < |segs| ==> segs[i].Lit?
  {
    seq(|segs|, i requires 0 <= i < |segs| => segs[i].name)
  }

  /** The string a segment denotes; `env` gives the string conversion of a
      dynamic key's runtime value. */
  function SegValue(s: Seg, env: Expr -> string): string {
    match s
    case Lit(n) => n
    case Dyn(k) => env(k)
  }

  function SegValues(segs: seq<Seg>, env: Expr -> string): seq<string> {
    seq(|segs|, i requires 0 <= i < |segs| => SegValue(segs[i], env))
  }

  /** The string a path expression denotes. Every `+` the builder creates has
      a string operand, so it is string concatenation; a seed `(k)` or a right
      operand that is not a literal is a dynamic key, evaluated by `env`. */
  function PathValue(e: Expr, env: Expr -> string): string {
    match e
    case StrLit(_, t) => t
    case Paren(_, x) => env(x)
    case Binary(_, Plus, l, r) => PathValue(l, env) + (if r.StrLit? then r.text else env(r))
    case _ => env(e)
  }

  // ---------------------------------------------------------------------
  // Properties

  /** The result is a single string literal exactly when every segment is
      static. */
  lemma {:induction false} PathIsLiteralIff(segs: seq<Seg>)
    requires |segs| > 0
    ensures BuildPath(segs).StrLit? <==> forall i :: 0 <= i < |segs| ==> segs[i].Lit?
  {
    if |segs| > 1 {
      var init := segs[..|segs| - 1];
      PathIsLiteralIff(init);
      assert forall i :: 0 <= i < |init| ==> init[i] == segs[i];
    }
  }

  /** A fully static chain yields one literal equal to its names joined by
      `.`. */
  lemma {:induction false} StaticPathIsJoinedNames(segs: seq<Seg>)
    requires |segs| > 0
    requires forall i :: 0 <= i < |segs| ==> segs[i].Lit?
    ensures BuildPath(segs) == StrLit(Synth, JoinDot(Names(segs)))
  {
    if |segs| > 1 {
      var init := segs[..|segs| - 1];
      StaticPathIsJoinedNames(init);
      assert Names(segs)[..|segs| - 1] == Names(init);
    }
  }

  /** Whatever the keys, the path expression evaluates to the segment values
      joined by `.`: the builder never loses, reorders or duplicates a
      segment or a separator. */
  lemma {:induction false} PathEvaluatesToDottedPath(segs: seq<Seg>, env: Expr -> string)
    requires |segs| > 0
    requires WellFormedSegs(segs)
    ensures PathValue(BuildPath(segs), env) == JoinDot(SegValues(segs, env))
  {
    if |segs| > 1 {
      var init := segs[..|segs| - 1];
      PathEvaluatesToDottedPath(init, env);
      assert SegValues(segs, env)[..|segs| - 1] == SegValues(init, env);
      var acc := BuildPath(init);
      var last := segs[|segs| - 1];
      assert last.Dyn? ==> !last.key.StrLit?;
    }
  }

  // ---------------------------------------------------------------------
  // Scenarios of test/test-propertiesChange.ts

  /** `this['some'].things['test'+ a][index]` gives
      `'some.things.' + ('test' + a) + '.' + index`. */
  lemma MixedChainExample()
    ensures
      var key := Binary(Src(7), Plus, StrLit(Src(8), "test"), Ident(Src(9), "a"));
      var index := Ident(Src(10), "index");
      var chain :=
        Elem(Src(1),
             Elem(Src(2),
                  Prop(Src(3), Elem(Src(4), This(Src(5)), StrLit(Src(6), "some")), "things"),
                  key),
             index);
      BuildPath(SegsOf(chain))
        == Binary(Synth, Plus,
                  Binary(Synth, Plus, Binary(Synth, Plus, StrLit(Synth, "some.things."), key), StrLit(Synth, ".")),
                  index)
  {
    var key := Binary(Src(7), Plus, StrLit(Src(8), "test"), Ident(Src(9), "a"));
    var index := Ident(Src(10), "index");
    var segs := [Lit("some"), Lit("things"), Dyn(key), Dyn(index)];
    var e4 := Elem(Src(4), This(Src(5)), StrLit(Src(6), "some"));
    var e3 := Prop(Src(3), e4, "things");
    var e2 := Elem(Src(2), e3, key);
    assert SegsOf(This(Src(5))) == [];
    assert SegsOf(e4) == [Lit("some")];
    assert SegsOf(e3) == [Lit("some"), Lit("things")];
    assert SegsOf(e2) == [Lit("some"), Lit("things"), Dyn(key)];
    assert SegsOf(Elem(Src(1), e2, index)) == segs;
    assert segs[..3] == [Lit("some"), Lit("things"), Dyn(key)];
    assert segs[..3][..2] == [Lit("some"), Lit("things")];
    assert segs[..3][..2][..1] == [Lit("some")];
    assert BuildPath(segs[..3][..2]) == StrLit(Synth, "some" + "." + "things");
    assert "some" + "." + "things" + "." == "some.things.";
  }

  /** A dynamic first key seeds a parenthesised copy: `this[a].b` gives
      `(a) + '.b'`. */
  lemma DynamicSeedExample()
    ensures
      var a := Ident(Src(3), "a");
      BuildPath(SegsOf(Prop(Src(1), Elem(Src(2), This(Src(4)), a), "b")))
        == Binary(Synth, Plus, Paren(Synth, a), StrLit(Synth, ".b"))
  {
    var a := Ident(Src(3), "a");
    var segs := [Dyn(a), Lit("b")];
    assert SegsOf(This(Src(4))) == [];
    assert SegsOf(Elem(Src(2), This(Src(4)), a)) == [Dyn(a)];
    assert SegsOf(Prop(Src(1), Elem(Src(2), This(Src(4)), a), "b")) == segs;
    assert segs[..1] == [Dyn(a)];
    assert BuildPath(segs) == Extend(Paren(Synth, a), Lit("b"));
    assert "." + "b" == ".b";
  }
}
