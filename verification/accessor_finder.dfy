/** `markThisDataGetOrSet`: for every `this` in a fragment, the outermost
    node reached by climbing property- and element-access parents. */
module AccessorFinder {
  import opened Results
  import opened ScriptAst

  /** An access-chain anchor together with the parent link the walk recorded
      for it (`None` when the anchor is the walked fragment itself). */
  datatype Anchor = Anchor(node: Expr, parent: Option<Expr>)

  /** A `this` node and its ancestors inside the walked fragment, root first:
      the parent links of the source's pre-pass. */
  datatype Site = Site(node: Expr, ancestors: seq<Expr>)

  /** The pre-pass: every `this` in pre-order (`ts.forEachChild` order). */
  function ThisSites(e: Expr, ancestors: seq<Expr>): seq<Site>
    decreases e, 1
  {
    if e.This? then [Site(e, ancestors)] else ThisSitesFrom(e, 0, ancestors + [e])
  }

  function ThisSitesFrom(e: Expr, i: nat, ancestors: seq<Expr>): seq<Site>
    requires i <= |Kids(e)|
    decreases e, 0, |Kids(e)| - i
  {
    if i == |Kids(e)| then []
    else ThisSites(Kids(e)[i], ancestors) + ThisSitesFrom(e, i + 1, ancestors)
  }

  function ParentOf(ancestors: seq<Expr>): Option<Expr> {
    if |ancestors| == 0 then None else Some(ancestors[|ancestors| - 1])
  }

  /** The `while` loop: move up while the parent is a property or element
      access, whichever child of it the current node is (the key of an
      element access included). */
  function Climb(node: Expr, ancestors: seq<Expr>): Anchor
    decreases |ancestors|
  {
    if |ancestors| > 0 && IsAccess(ancestors[|ancestors| - 1]) then
      Climb(ancestors[|ancestors| - 1], ancestors[..|ancestors| - 1])
    else Anchor(node, ParentOf(ancestors))
  }

  /** Climb from every site; keep the result only when it is an access. */
  function ClimbAll(sites: seq<Site>): seq<Anchor> {
    if |sites| == 0 then []
    else
      var a := Climb(sites[0].node, sites[0].ancestors);
      (if IsAccess(a.node) then [a] else []) + ClimbAll(sites[1..])
  }

  /** `markThisDataGetOrSet(root)`, with each anchor's recorded parent. The
      walk starts at the children of `root`, and the climb stops at `root`. */
  function MarkThisAnchors(root: Expr): seq<Anchor> {
    ClimbAll(ThisSitesFrom(root, 0, [root]))
  }

  /** The nodes `markThisDataGetOrSet(root)` returns. */
  function MarkThisDataGetOrSet(root: Expr): seq<Expr> {
    var anchors := MarkThisAnchors(root);
    seq(|anchors|, i requires 0 <= i < |anchors| => anchors[i].node)
  }

  // ---------------------------------------------------------------------
  // Top-down reference: pass the anchor a `this` would reach downwards.

  /** The anchor handed to the children of `e`: an access node passes on the
      anchor above it, or becomes the anchor itself when there is none. */
  function ChildTop(e: Expr, top: Option<Anchor>, parent: Option<Expr>): Option<Anchor> {
    if IsAccess(e) then (if top.Some? then top else Some(Anchor(e, parent))) else None
  }

  /** Anchors of the `this` nodes of `e` in pre-order; `top` is the anchor a
      `this` placed at `e` would climb to. */
  function Collect(e: Expr, top: Option<Anchor>, parent: Option<Expr>): seq<Anchor>
    decreases e, 1
  {
    if e.This? then (if top.Some? then [top.value] else [])
    else CollectFrom(e, 0, ChildTop(e, top, parent))
  }

  function CollectFrom(e: Expr, i: nat, top: Option<Anchor>): seq<Anchor>
    requires i <= |Kids(e)|
    decreases e, 0, |Kids(e)| - i
  {
    if i == |Kids(e)| then []
    else Collect(Kids(e)[i], top, Some(e)) + CollectFrom(e, i + 1, top)
  }

  /** The anchor a `this` directly below the ancestor stack would climb to. */
  function Top(ancestors: seq<Expr>): Option<Anchor> {
    if |ancestors| > 0 && IsAccess(ancestors[|ancestors| - 1]) then
      Some(Climb(ancestors[|ancestors| - 1], ancestors[..|ancestors| - 1]))
    else None
  }

  lemma {:induction false} ClimbAllAppend(a: seq<Site>, b: seq<Site>)
    ensures ClimbAll(a + b) == ClimbAll(a) + ClimbAll(b)
  {
    if |a| == 0 {
      assert a + b == b;
    } else {
      assert (a + b)[0] == a[0];
      assert (a + b)[1..] == a[1..] + b;
      ClimbAllAppend(a[1..], b);
    }
  }

  lemma {:induction false} ClimbFromAccessEndsAtAccess(node: Expr, ancestors: seq<Expr>)
    requires IsAccess(node)
    ensures IsAccess(Climb(node, ancestors).node)
    decreases |ancestors|
  {
    if |ancestors| > 0 && IsAccess(ancestors[|ancestors| - 1]) {
      ClimbFromAccessEndsAtAccess(ancestors[|ancestors| - 1], ancestors[..|ancestors| - 1]);
    }
  }

  lemma TopOfExtended(e: Expr, ancestors: seq<Expr>)
    requires !e.This?
    ensures Top(ancestors + [e]) == ChildTop(e, Top(ancestors), ParentOf(ancestors))
    ensures ParentOf(ancestors + [e]) == Some(e)
  {
    assert (ancestors + [e])[..|ancestors|] == ancestors;
  }

  /** The bottom-up climb and the top-down propagation find the same anchors
      in the same order. */
  lemma {:induction false} ClimbMatchesCollect(e: Expr, ancestors: seq<Expr>)
    ensures ClimbAll(ThisSites(e, ancestors)) == Collect(e, Top(ancestors), ParentOf(ancestors))
    decreases e, 1
  {
    if e.This? {
      assert [Site(e, ancestors)][1..] == [];
      if Top(ancestors).Some? {
        ClimbFromAccessEndsAtAccess(ancestors[|ancestors| - 1], ancestors[..|ancestors| - 1]);
      }
    } else {
      TopOfExtended(e, ancestors);
      ClimbMatchesCollectFrom(e, 0, ancestors + [e]);
    }
  }

  lemma {:induction false} ClimbMatchesCollectFrom(e: Expr, i: nat, ancestors: seq<Expr>)
    requires i <= |Kids(e)|
    requires |ancestors| > 0 && ancestors[|ancestors| - 1] == e
    ensures ClimbAll(ThisSitesFrom(e, i, ancestors)) == CollectFrom(e, i, Top(ancestors))
    decreases e, 0, |Kids(e)| - i
  {
    if i < |Kids(e)| {
      ClimbAllAppend(ThisSites(Kids(e)[i], ancestors), ThisSitesFrom(e, i + 1, ancestors));
      ClimbMatchesCollect(Kids(e)[i], ancestors);
      ClimbMatchesCollectFrom(e, i + 1, ancestors);
    }
  }

  /** The source's upward climb agrees with the top-down reference. */
  lemma MarkThisMatchesReference(root: Expr)
    ensures MarkThisAnchors(root) == Collect(root, None, None)
  {
    if root.This? {
      assert ThisSitesFrom(root, 0, [root]) == [];
    } else {
      TopOfExtended(root, []);
      assert [] + [root] == [root];
      ClimbMatchesCollectFrom(root, 0, [root]);
    }
  }

  // ---------------------------------------------------------------------
  // What the anchors are

  /** An anchor is an access node that is the walked fragment itself or sits
      below a parent that is not an access: the outermost link of its chain. */
  predicate OutermostAccess(a: Anchor) {
    && IsAccess(a.node)
    && (a.parent.Some? ==> !IsAccess(a.parent.value) && a.node in Kids(a.parent.value))
  }

  /** `top` is present exactly below an access parent, and is outermost. */
  predicate TopInvariant(top: Option<Anchor>, parent: Option<Expr>) {
    && (top.Some? <==> parent.Some? && IsAccess(parent.value))
    && (top.Some? ==> OutermostAccess(top.value))
  }

  lemma {:induction false} CollectFindsOutermost(e: Expr, top: Option<Anchor>, parent: Option<Expr>)
    requires TopInvariant(top, parent)
    requires parent.Some? ==> e in Kids(parent.value)
    ensures forall a :: a in Collect(e, top, parent) ==> OutermostAccess(a)
    decreases e, 1
  {
    if !e.This? {
      CollectFromFindsOutermost(e, 0, ChildTop(e, top, parent));
    }
  }

  lemma {:induction false} CollectFromFindsOutermost(e: Expr, i: nat, top: Option<Anchor>)
    requires i <= |Kids(e)|
    requires TopInvariant(top, Some(e))
    ensures forall a :: a in CollectFrom(e, i, top) ==> OutermostAccess(a)
    decreases e, 0, |Kids(e)| - i
  {
    if i < |Kids(e)| {
      CollectFindsOutermost(Kids(e)[i], top, Some(e));
      CollectFromFindsOutermost(e, i + 1, top);
    }
  }

  /** Every anchor `markThisDataGetOrSet` returns is the outermost access of
      its chain, and the parent recorded for it is its real parent. */
  lemma AnchorsAreOutermostAccesses(root: Expr)
    ensures forall a :: a in MarkThisAnchors(root) ==> OutermostAccess(a)
  {
    MarkThisMatchesReference(root);
    CollectFindsOutermost(root, None, None);
  }

  /** Number of `this` nodes whose parent is a property or element access. */
  function CountThisUnderAccess(e: Expr, parentIsAccess: bool): nat
    decreases e, 1
  {
    if e.This? then (if parentIsAccess then 1 else 0)
    else CountThisUnderAccessFrom(e, 0)
  }

  function CountThisUnderAccessFrom(e: Expr, i: nat): nat
    requires i <= |Kids(e)|
    decreases e, 0, |Kids(e)| - i
  {
    if i == |Kids(e)| then 0
    else CountThisUnderAccess(Kids(e)[i], IsAccess(e)) + CountThisUnderAccessFrom(e, i + 1)
  }

  lemma {:induction false} CollectCount(e: Expr, top: Option<Anchor>, parent: Option<Expr>)
    ensures |Collect(e, top, parent)| == CountThisUnderAccess(e, top.Some?)
    decreases e, 1
  {
    if !e.This? {
      CollectFromCount(e, 0, ChildTop(e, top, parent));
    }
  }

  lemma {:induction false} CollectFromCount(e: Expr, i: nat, top: Option<Anchor>)
    requires i <= |Kids(e)|
    requires top.Some? == IsAccess(e)
    ensures |CollectFrom(e, i, top)| == CountThisUnderAccessFrom(e, i)
    decreases e, 0, |Kids(e)| - i
  {
    if i < |Kids(e)| {
      CollectCount(Kids(e)[i], top, Some(e));
      CollectFromCount(e, i + 1, top);
    }
  }

  /** One anchor per `this` that has an access parent, duplicates kept; a bare
      `this` contributes nothing. */
  lemma OneAnchorPerAccessedThis(root: Expr)
    ensures |MarkThisDataGetOrSet(root)| == CountThisUnderAccess(root, false)
  {
    MarkThisMatchesReference(root);
    CollectCount(root, None, None);
  }

  /** `this.a[this.b]` inside a statement: both `this` nodes climb to the same
      element access (the second through the key position), and the anchor
      is reported twice. */
  lemma DuplicateAnchorExample()
    ensures
      var x := Elem(Src(1), Prop(Src(2), This(Src(3)), "a"), Prop(Src(4), This(Src(5)), "b"));
      MarkThisDataGetOrSet(Other(Src(0), "ExpressionStatement", [x])) == [x, x]
  {
    var x := Elem(Src(1), Prop(Src(2), This(Src(3)), "a"), Prop(Src(4), This(Src(5)), "b"));
    var root := Other(Src(0), "ExpressionStatement", [x]);
    MarkThisMatchesReference(root);
    var top := Some(Anchor(x, Some(root)));
    assert Collect(Prop(Src(2), This(Src(3)), "a"), top, Some(x)) == [top.value];
    assert Collect(Prop(Src(4), This(Src(5)), "b"), top, Some(x)) == [top.value];
    assert CollectFrom(x, 0, top) == [top.value, top.value];
    assert ChildTop(x, None, Some(root)) == top;
    assert Collect(x, None, Some(root)) == [top.value, top.value];
    assert CollectFrom(root, 1, None) == [];
    assert Collect(root, None, None) == [top.value, top.value];
  }
}
