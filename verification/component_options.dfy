/** The rewrite of the default-exported component options literal in
    `modifyVueScript`: the `data` key becomes `initData` and the `methods`
    property is replaced, at its own index, by its method declarations,
    each passed through a method rewriter. The newer revision passes
    `modifyVueMethods`; the older one keeps the methods as they are. */
module ComponentOptions {
  import opened Results
  import opened ScriptAst
  import MethodRewriter

  /** The name of an object-literal member: an identifier (whose text the
      source reads through `escapedText`), or any other kind of name, which
      has no `escapedText`. */
  datatype PropKey = IdKey(text: string) | OtherKey(printed: string)

  /** Members of an object literal. `Shorthand` stands for every named
      member that is neither a property assignment nor a method (shorthand
      properties, accessors); a spread has no name at all. A method's
      parameters and body are the expression tree `node`. */
  datatype Member =
    | PropAssign(key: PropKey, value: Value)
    | MethodDecl(key: PropKey, node: Expr)
    | Shorthand(key: PropKey, node: Expr)
    | Spread(node: Expr)

  /** A property value: an object literal, or any other expression. */
  datatype Value = ObjLit(members: seq<Member>) | Plain(e: Expr)

  /** Top-level statements of the script: `export default <value>` (or
      `export = <value>`) and everything else. */
  datatype Stmt = ExportAssignment(value: Value) | OtherStmt(node: Expr)

  /** A method rewriter; a failure aborts the whole rewrite. */
  type MethodRewrite = Expr -> Result<Expr, ScriptError>

  /** `findDefaultExports`: the index of the first export assignment, or
      the length of the list when there is none. */
  function FindDefaultExport(file: seq<Stmt>): (i: nat)
    ensures i <= |file|
    ensures i < |file| ==> file[i].ExportAssignment?
    ensures forall j :: 0 <= j < i ==> !file[j].ExportAssignment?
  {
    if |file| == 0 then 0
    else if file[0].ExportAssignment? then 0
    else 1 + FindDefaultExport(file[1..])
  }

  predicate IsMethodsProp(m: Member) {
    m.PropAssign? && m.key == IdKey("methods")
  }

  /** Rewrite the `MethodDecl` members of a `methods` literal, in order;
      every other member is dropped. */
  function RewriteDecls(ms: seq<Member>, rewrite: MethodRewrite): Result<seq<Member>, ScriptError> {
    if |ms| == 0 then Ok([])
    else
      var head :-
        if ms[0].MethodDecl? then
          var n :- rewrite(ms[0].node);
          Ok([MethodDecl(ms[0].key, n)])
        else Ok([]);
      var rest :- RewriteDecls(ms[1..], rewrite);
      Ok(head + rest)
  }

  /** What one iteration of the `forEach` yields: the member as it now
      reads, the methods it contributes, and whether it is a `methods`
      property (the latest such is the one to remove). */
  datatype Visited = Visited(member: Member, methods: seq<Member>, isMethods: bool)

  /** One iteration over the options: reading the name of a spread throws;
      an identifier `data` is renamed, whatever kind of member carries it;
      a `methods` property assignment contributes its rewritten methods
      when its value is an object literal and nothing otherwise. */
  function Visit(m: Member, rewrite: MethodRewrite): Result<Visited, ScriptError> {
    if m.Spread? then Err(MemberWithoutName)
    else if m.key == IdKey("data") then Ok(Visited(m.(key := IdKey("initData")), [], false))
    else if IsMethodsProp(m) then
      var ds :- if m.value.ObjLit? then RewriteDecls(m.value.members, rewrite) else Ok([]);
      Ok(Visited(m, ds, true))
    else Ok(Visited(m, [], false))
  }

  /** The state after the `forEach`: the renamed members, all collected
      methods, and the index of the last `methods` property. */
  datatype Scan = Scan(props: seq<Member>, methods: seq<Member>, toRemove: Option<nat>)

  /** The `forEach` over the options, in order; the first failure escapes. */
  function ScanMembers(ms: seq<Member>, rewrite: MethodRewrite): (r: Result<Scan, ScriptError>)
    ensures r.Ok? ==> |r.value.props| == |ms|
    ensures r.Ok? && r.value.toRemove.Some? ==> r.value.toRemove.value < |ms|
  {
    if |ms| == 0 then Ok(Scan([], [], None))
    else
      var v :- Visit(ms[0], rewrite);
      var s :- ScanMembers(ms[1..], rewrite);
      var idx := if s.toRemove.Some? then Some(s.toRemove.value + 1)
                 else if v.isMethods then Some(0) else None;
      Ok(Scan([v.member] + s.props, v.methods + s.methods, idx))
  }

  /** The options rewrite: when a `methods` property was seen, the one last
      seen is replaced by all collected methods (`splice(index, 1, ...)`). */
  function RewriteOptions(ms: seq<Member>, rewrite: MethodRewrite): Result<seq<Member>, ScriptError> {
    var s :- ScanMembers(ms, rewrite);
    if s.toRemove.None? then Ok(s.props)
    else Ok(s.props[..s.toRemove.value] + s.methods + s.props[s.toRemove.value + 1..])
  }

  /** The script rewrite: only when the first export assignment holds an
      object literal are its members rewritten; otherwise the statements
      come back as they are. Nothing but that export changes. */
  function ModifyVueScript(file: seq<Stmt>, rewrite: MethodRewrite): (r: Result<seq<Stmt>, ScriptError>)
    ensures var i := FindDefaultExport(file);
      i == |file| || !file[i].value.ObjLit? ==> r == Ok(file)
    ensures r.Ok? ==> |r.value| == |file|
    ensures r.Ok? ==> forall j :: 0 <= j < |file| && j != FindDefaultExport(file) ==> r.value[j] == file[j]
  {
    var i := FindDefaultExport(file);
    if i == |file| || !file[i].value.ObjLit? then Ok(file)
    else
      var ms :- RewriteOptions(file[i].value.members, rewrite);
      Ok(file[i := ExportAssignment(ObjLit(ms))])
  }

  /** The newer revision: methods go through `modifyVueMethods`. */
  function ModifyScript(file: seq<Stmt>): Result<seq<Stmt>, ScriptError> {
    ModifyVueScript(file, MethodRewriter.ModifyVueMethods)
  }

  /** The older revision's method handling: its `modifyVueMethods` is a
      no-op, so each method is kept as it is. */
  function KeepMethod(n: Expr): Result<Expr, ScriptError> {
    Ok(n)
  }

  /** The older revision: methods are spliced in unchanged. */
  function LegacyModifyScript(file: seq<Stmt>): Result<seq<Stmt>, ScriptError> {
    ModifyVueScript(file, KeepMethod)
  }

  // ---------------------------------------------------------------------
  // Reference description of the rewrite

  /** The member as it reads after renaming. */
  function Renamed(m: Member): Member
    requires !m.Spread?
  {
    if m.key == IdKey("data") then m.(key := IdKey("initData")) else m
  }

  function RenamedAll(ms: seq<Member>): (r: seq<Member>)
    requires forall j :: 0 <= j < |ms| ==> !ms[j].Spread?
    ensures |r| == |ms| && forall j :: 0 <= j < |ms| ==> r[j] == Renamed(ms[j])
  {
    seq(|ms|, j requires 0 <= j < |ms| => Renamed(ms[j]))
  }

  /** The index of the last `methods` property, searching from the end. */
  function LastMethodsProp(ms: seq<Member>): (r: Option<nat>)
    ensures r.Some? ==> r.value < |ms| && IsMethodsProp(ms[r.value])
    ensures r.Some? ==> forall j :: r.value < j < |ms| ==> !IsMethodsProp(ms[j])
    ensures r.None? ==> forall j :: 0 <= j < |ms| ==> !IsMethodsProp(ms[j])
  {
    if |ms| == 0 then None
    else if IsMethodsProp(ms[|ms| - 1]) then Some(|ms| - 1)
    else LastMethodsProp(ms[..|ms| - 1])
  }

  /** The method declarations of one member, if it is a `methods` literal. */
  function DeclsOf(m: Member): seq<Member> {
    if IsMethodsProp(m) && m.value.ObjLit? then
      Filter(m.value.members)
    else []
  }

  function Filter(ms: seq<Member>): (r: seq<Member>)
    ensures forall k :: 0 <= k < |r| ==> r[k].MethodDecl?
  {
    if |ms| == 0 then []
    else (if ms[0].MethodDecl? then [ms[0]] else []) + Filter(ms[1..])
  }

  /** The method declarations of every `methods` literal, in order. */
  function AllDecls(ms: seq<Member>): seq<Member> {
    if |ms| == 0 then [] else DeclsOf(ms[0]) + AllDecls(ms[1..])
  }

  /** Rewrite each declaration's node, keeping its key. */
  function MapRewrite(ds: seq<Member>, rewrite: MethodRewrite): (r: Result<seq<Member>, ScriptError>)
    requires forall k :: 0 <= k < |ds| ==> ds[k].MethodDecl?
    ensures r.Ok? ==> |r.value| == |ds|
    ensures r.Ok? ==> forall k :: 0 <= k < |ds| ==>
      r.value[k].MethodDecl? && r.value[k].key == ds[k].key && rewrite(ds[k].node) == Ok(r.value[k].node)
    ensures r.Err? <==> exists k :: 0 <= k < |ds| && rewrite(ds[k].node).Err?
  {
    if |ds| == 0 then Ok([])
    else
      var n :- rewrite(ds[0].node);
      var rest :- MapRewrite(ds[1..], rewrite);
      Ok([MethodDecl(ds[0].key, n)] + rest)
  }

  // ---------------------------------------------------------------------
  // The rewrite agrees with the reference description

  lemma {:induction false} RewriteDeclsIsMapOfFilter(ms: seq<Member>, rewrite: MethodRewrite)
    ensures RewriteDecls(ms, rewrite) == MapRewrite(Filter(ms), rewrite)
  {
    if |ms| > 0 {
      RewriteDeclsIsMapOfFilter(ms[1..], rewrite);
      if ms[0].MethodDecl? {
        assert Filter(ms) == [ms[0]] + Filter(ms[1..]);
        assert Filter(ms)[1..] == Filter(ms[1..]);
      } else {
        assert Filter(ms) == Filter(ms[1..]);
        var rest := RewriteDecls(ms[1..], rewrite);
        if rest.Ok? {
          assert [] + rest.value == rest.value;
        }
      }
    }
  }

  lemma {:induction false} MapRewriteAppend(a: seq<Member>, b: seq<Member>, rewrite: MethodRewrite)
    requires forall k :: 0 <= k < |a| ==> a[k].MethodDecl?
    requires forall k :: 0 <= k < |b| ==> b[k].MethodDecl?
    ensures MapRewrite(a + b, rewrite) ==
      (var x :- MapRewrite(a, rewrite); var y :- MapRewrite(b, rewrite); Ok(x + y))
  {
    if |a| > 0 {
      assert (a + b)[0] == a[0];
      assert (a + b)[1..] == a[1..] + b;
      MapRewriteAppend(a[1..], b, rewrite);
      var n := rewrite(a[0].node);
      if n.Ok? {
        var x' := MapRewrite(a[1..], rewrite);
        var y := MapRewrite(b, rewrite);
        if x'.Ok? && y.Ok? {
          var h := [MethodDecl(a[0].key, n.value)];
          assert h + (x'.value + y.value) == (h + x'.value) + y.value;
        }
      }
    } else {
      assert a + b == b;
      var y := MapRewrite(b, rewrite);
      if y.Ok? {
        assert [] + y.value == y.value;
      }
    }
  }

  lemma {:induction false} AllDeclsAreDecls(ms: seq<Member>)
    ensures forall k :: 0 <= k < |AllDecls(ms)| ==> AllDecls(ms)[k].MethodDecl?
  {
    if |ms| > 0 {
      AllDeclsAreDecls(ms[1..]);
    }
  }

  lemma LastMethodsPropUnique(ms: seq<Member>, k: nat)
    requires k < |ms| && IsMethodsProp(ms[k])
    requires forall j :: k < j < |ms| ==> !IsMethodsProp(ms[j])
    ensures LastMethodsProp(ms) == Some(k)
  {
  }

  lemma LastMethodsPropNone(ms: seq<Member>)
    requires forall j :: 0 <= j < |ms| ==> !IsMethodsProp(ms[j])
    ensures LastMethodsProp(ms) == None
  {
  }

  lemma LastMethodsPropCons(ms: seq<Member>)
    requires |ms| > 0
    ensures LastMethodsProp(ms) ==
      var t := LastMethodsProp(ms[1..]);
      if t.Some? then Some(t.value + 1)
      else if IsMethodsProp(ms[0]) then Some(0) else None
  {
    var t := LastMethodsProp(ms[1..]);
    assert forall j :: 0 < j < |ms| ==> ms[j] == ms[1..][j - 1];
    if t.Some? {
      assert ms[1..][t.value] == ms[t.value + 1];
      LastMethodsPropUnique(ms, t.value + 1);
    } else if IsMethodsProp(ms[0]) {
      LastMethodsPropUnique(ms, 0);
    } else {
      LastMethodsPropNone(ms);
    }
  }

  /** One visit of a named member, described by the reference functions. */
  lemma VisitMatchesReference(m: Member, rewrite: MethodRewrite)
    requires !m.Spread?
    ensures forall k :: 0 <= k < |DeclsOf(m)| ==> DeclsOf(m)[k].MethodDecl?
    ensures Visit(m, rewrite) ==
      (var ds :- MapRewrite(DeclsOf(m), rewrite);
       Ok(Visited(Renamed(m), ds, IsMethodsProp(m))))
  {
    if IsMethodsProp(m) && m.value.ObjLit? {
      RewriteDeclsIsMapOfFilter(m.value.members, rewrite);
    }
  }

  /** Without spread members, one pass over the options renames every
      `data` key in place, collects the rewritten declarations of every
      `methods` literal in order, and remembers the last `methods` index;
      it fails exactly when some collected method fails to rewrite. */
  lemma {:induction false} ScanMatchesReference(ms: seq<Member>, rewrite: MethodRewrite)
    requires forall j :: 0 <= j < |ms| ==> !ms[j].Spread?
    ensures forall k :: 0 <= k < |AllDecls(ms)| ==> AllDecls(ms)[k].MethodDecl?
    ensures ScanMembers(ms, rewrite) ==
      (var ds :- MapRewrite(AllDecls(ms), rewrite);
       Ok(Scan(RenamedAll(ms), ds, LastMethodsProp(ms))))
  {
    AllDeclsAreDecls(ms);
    if |ms| > 0 {
      var tail := ms[1..];
      ScanMatchesReference(tail, rewrite);
      VisitMatchesReference(ms[0], rewrite);
      LastMethodsPropCons(ms);
      AllDeclsAreDecls(tail);
      MapRewriteAppend(DeclsOf(ms[0]), AllDecls(tail), rewrite);
      var d := MapRewrite(DeclsOf(ms[0]), rewrite);
      var e := MapRewrite(AllDecls(tail), rewrite);
      if d.Ok? && e.Ok? {
        assert RenamedAll(ms) == [Renamed(ms[0])] + RenamedAll(tail);
      }
    }
  }

  /** Without spread members the options rewrite fails exactly when some
      collected method fails to rewrite; otherwise every member keeps its
      place with `data` renamed to `initData`, except the last `methods`
      property, which is replaced in place by the rewritten method
      declarations of all `methods` literals, in order. */
  lemma RewriteOptionsMatchesReference(ms: seq<Member>, rewrite: MethodRewrite)
    requires forall j :: 0 <= j < |ms| ==> !ms[j].Spread?
    ensures forall k :: 0 <= k < |AllDecls(ms)| ==> AllDecls(ms)[k].MethodDecl?
    ensures RewriteOptions(ms, rewrite).Err? <==>
      exists k :: 0 <= k < |AllDecls(ms)| && rewrite(AllDecls(ms)[k].node).Err?
    ensures RewriteOptions(ms, rewrite).Ok? && LastMethodsProp(ms).None? ==>
      RewriteOptions(ms, rewrite).value == RenamedAll(ms)
    ensures RewriteOptions(ms, rewrite).Ok? && LastMethodsProp(ms).Some? ==>
      var k := LastMethodsProp(ms).value;
      RewriteOptions(ms, rewrite).value ==
        RenamedAll(ms[..k]) + MapRewrite(AllDecls(ms), rewrite).value + RenamedAll(ms[k + 1..])
  {
    ScanMatchesReference(ms, rewrite);
    if LastMethodsProp(ms).Some? {
      var k := LastMethodsProp(ms).value;
      assert RenamedAll(ms)[..k] == RenamedAll(ms[..k]);
      assert RenamedAll(ms)[k + 1..] == RenamedAll(ms[k + 1..]);
    }
  }

  /** Reading the name of a spread member throws, so any spread makes the
      rewrite fail (with that error, or an earlier method's). */
  lemma {:induction false} SpreadFails(ms: seq<Member>, rewrite: MethodRewrite)
    requires exists j :: 0 <= j < |ms| && ms[j].Spread?
    ensures RewriteOptions(ms, rewrite).Err?
  {
    SpreadFailsScan(ms, rewrite);
  }

  lemma {:induction false} SpreadFailsScan(ms: seq<Member>, rewrite: MethodRewrite)
    requires exists j :: 0 <= j < |ms| && ms[j].Spread?
    ensures ScanMembers(ms, rewrite).Err?
  {
    var j :| 0 <= j < |ms| && ms[j].Spread?;
    if j > 0 {
      assert ms[1..][j - 1].Spread?;
      SpreadFailsScan(ms[1..], rewrite);
    }
  }

  /** The script rewrite fails exactly when the options rewrite of the
      first export's object literal fails, and otherwise puts its result in
      place of that literal. */
  lemma ScriptRewritesFirstExport(file: seq<Stmt>, rewrite: MethodRewrite)
    requires FindDefaultExport(file) < |file|
    requires file[FindDefaultExport(file)].value.ObjLit?
    ensures var i := FindDefaultExport(file);
      var out := RewriteOptions(file[i].value.members, rewrite);
      && (ModifyVueScript(file, rewrite).Err? <==> out.Err?)
      && (out.Ok? ==> ModifyVueScript(file, rewrite).value[i] == ExportAssignment(ObjLit(out.value)))
  {
  }

  // ---------------------------------------------------------------------
  // The older revision

  lemma {:induction false} IdentityKeepsDecls(ds: seq<Member>)
    requires forall k :: 0 <= k < |ds| ==> ds[k].MethodDecl?
    ensures MapRewrite(ds, KeepMethod) == Ok(ds)
  {
    if |ds| > 0 {
      IdentityKeepsDecls(ds[1..]);
      assert [MethodDecl(ds[0].key, ds[0].node)] + ds[1..] == ds;
    }
  }

  /** The older rewrite never fails on named members and splices the
      method declarations of every `methods` literal unchanged at the last
      `methods` index. */
  lemma LegacyOptionsKeepMethods(ms: seq<Member>)
    requires forall j :: 0 <= j < |ms| ==> !ms[j].Spread?
    ensures forall k :: 0 <= k < |AllDecls(ms)| ==> AllDecls(ms)[k].MethodDecl?
    ensures RewriteOptions(ms, KeepMethod).Ok?
    ensures LastMethodsProp(ms).None? ==> RewriteOptions(ms, KeepMethod).value == RenamedAll(ms)
    ensures LastMethodsProp(ms).Some? ==>
      var k := LastMethodsProp(ms).value;
      RewriteOptions(ms, KeepMethod).value ==
        RenamedAll(ms[..k]) + AllDecls(ms) + RenamedAll(ms[k + 1..])
  {
    RewriteOptionsMatchesReference(ms, KeepMethod);
    AllDeclsAreDecls(ms);
    IdentityKeepsDecls(AllDecls(ms));
  }

  // ---------------------------------------------------------------------
  // Scenarios of test/test.ts

  const Body: Expr := Other(Src(1), "Block", [])

  /** `export default { data() { ... } }` becomes `{ initData() { ... } }`. */
  lemma DataRenamedExample()
    ensures LegacyModifyScript([ExportAssignment(ObjLit([MethodDecl(IdKey("data"), Body)]))])
         == Ok([ExportAssignment(ObjLit([MethodDecl(IdKey("initData"), Body)]))])
  {
    var ms := [MethodDecl(IdKey("data"), Body)];
    var file := [ExportAssignment(ObjLit(ms))];
    LegacyOptionsKeepMethods(ms);
    LastMethodsPropNone(ms);
    assert RenamedAll(ms) == [MethodDecl(IdKey("initData"), Body)];
    assert RewriteOptions(ms, KeepMethod) == Ok([MethodDecl(IdKey("initData"), Body)]);
    assert FindDefaultExport(file) == 0;
    assert file[0 := ExportAssignment(ObjLit([MethodDecl(IdKey("initData"), Body)]))]
        == [ExportAssignment(ObjLit([MethodDecl(IdKey("initData"), Body)]))];
  }

  /** `export default { methods: { test() {} } }` becomes
      `{ test() {} }`. */
  lemma MethodsFlattenedExample()
    ensures LegacyModifyScript([ExportAssignment(ObjLit([
              PropAssign(IdKey("methods"), ObjLit([MethodDecl(IdKey("test"), Body)]))]))])
         == Ok([ExportAssignment(ObjLit([MethodDecl(IdKey("test"), Body)]))])
  {
    var ms := [PropAssign(IdKey("methods"), ObjLit([MethodDecl(IdKey("test"), Body)]))];
    var file := [ExportAssignment(ObjLit(ms))];
    var out := [MethodDecl(IdKey("test"), Body)];
    SingleMethodFlattened(MethodDecl(IdKey("test"), Body), KeepMethod, Body);
    assert FindDefaultExport(file) == 0;
    assert file[0 := ExportAssignment(ObjLit(out))] == [ExportAssignment(ObjLit(out))];
  }

  /** A `methods` property whose value is not an object literal is removed
      and nothing takes its place; the members around it stay. */
  lemma NonLiteralMethodsRemovedExample(before: Member, after: Member, v: Expr)
    requires !before.Spread? && !after.Spread?
    requires !IsMethodsProp(before) && !IsMethodsProp(after)
    ensures RewriteOptions([before, PropAssign(IdKey("methods"), Plain(v)), after], KeepMethod)
         == Ok([Renamed(before), Renamed(after)])
  {
    var ms := [before, PropAssign(IdKey("methods"), Plain(v)), after];
    LegacyOptionsKeepMethods(ms);
    assert LastMethodsProp(ms) == Some(1) by {
      LastMethodsPropUnique(ms, 1);
    }
    assert DeclsOf(after) == [] && DeclsOf(ms[1]) == [];
    assert AllDecls(ms[2..][1..]) == [];
    assert AllDecls(ms[2..]) == [];
    assert AllDecls(ms[1..]) == [];
    assert AllDecls(ms) == [];
    assert ms[..1] == [before] && ms[2..] == [after];
    assert RenamedAll([before]) + [] + RenamedAll([after]) == [Renamed(before), Renamed(after)];
  }

  /** With two `methods` properties, the first one stays as it was and the
      second is replaced by the methods of both. */
  lemma TwoMethodsPropsExample(m1: Member, m2: Member)
    requires m1.MethodDecl? && m2.MethodDecl?
    ensures
      var p1 := PropAssign(IdKey("methods"), ObjLit([m1]));
      var p2 := PropAssign(IdKey("methods"), ObjLit([m2]));
      RewriteOptions([p1, p2], KeepMethod) == Ok([p1, m1, m2])
  {
    var p1 := PropAssign(IdKey("methods"), ObjLit([m1]));
    var p2 := PropAssign(IdKey("methods"), ObjLit([m2]));
    var ms := [p1, p2];
    LegacyOptionsKeepMethods(ms);
    LastMethodsPropUnique(ms, 1);
    assert Filter([m1]) == [m1] && Filter([m2]) == [m2];
    assert AllDecls(ms[1..][1..]) == [];
    assert AllDecls(ms[1..]) == [m2];
    assert AllDecls(ms) == [m1, m2];
    assert ms[..1] == [p1] && ms[2..] == [];
    assert RenamedAll([p1]) == [p1];
    assert [p1] + [m1, m2] + [] == [p1, m1, m2];
  }

  /** A literal holding only `methods: { d }` becomes the rewritten `d`. */
  lemma {:induction false} SingleMethodFlattened(d: Member, rewrite: MethodRewrite, n: Expr)
    requires d.MethodDecl? && rewrite(d.node) == Ok(n)
    ensures RewriteOptions([PropAssign(IdKey("methods"), ObjLit([d]))], rewrite)
         == Ok([MethodDecl(d.key, n)])
  {
    var p := PropAssign(IdKey("methods"), ObjLit([d]));
    var out := [MethodDecl(d.key, n)];
    assert [d][1..] == [];
    assert RewriteDecls([d], rewrite) == Ok(out + []);
    assert out + [] == out;
    assert p.key != IdKey("data") && IsMethodsProp(p);
    assert Visit(p, rewrite) == Ok(Visited(p, out, true));
    assert [p][1..] == [];
    assert ScanMembers([], rewrite) == Ok(Scan([], [], None));
    assert [p] + [] == [p];
    assert ScanMembers([p], rewrite) == Ok(Scan([p], out + [], Some(0)));
    assert [p][..0] + out + [p][1..] == out;
  }

  /** The newer revision rewrites the method body:
      `methods: { test() { console.log(this.some); } }` becomes
      `test() { console.log(this.data.get('some')); }`. */
  lemma MethodRewrittenExample(callee: Expr, x: Expr)
    requires callee == Prop(Src(2), Ident(Src(3), "console"), "log")
    requires x == Prop(Src(4), This(Src(5)), "some")
    ensures
      var body := MethodRewriter.Stmt(Call(Src(1), callee, [x]));
      var get := Call(Synth, MethodRewriter.DataMember("get"), [StrLit(Synth, "some")]);
      var out := MethodRewriter.Stmt(Call(Src(1), callee, [get]));
      ModifyScript([ExportAssignment(ObjLit([PropAssign(IdKey("methods"), ObjLit([MethodDecl(IdKey("test"), body)]))]))])
        == Ok([ExportAssignment(ObjLit([MethodDecl(IdKey("test"), out)]))])
  {
    var body := MethodRewriter.Stmt(Call(Src(1), callee, [x]));
    var get := Call(Synth, MethodRewriter.DataMember("get"), [StrLit(Synth, "some")]);
    var out := MethodRewriter.Stmt(Call(Src(1), callee, [get]));
    MethodRewriter.LogExample(callee, x);
    var ms := [PropAssign(IdKey("methods"), ObjLit([MethodDecl(IdKey("test"), body)]))];
    SingleMethodFlattened(MethodDecl(IdKey("test"), body), MethodRewriter.ModifyVueMethods, out);
    var file := [ExportAssignment(ObjLit(ms))];
    assert FindDefaultExport(file) == 0;
    assert file[0 := ExportAssignment(ObjLit([MethodDecl(IdKey("test"), out)]))]
        == [ExportAssignment(ObjLit([MethodDecl(IdKey("test"), out)]))];
  }
}
