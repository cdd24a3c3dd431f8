/** `replaceAccessors`: one top-down pass that swaps each node matching a
    pending origin (by identity) for its replacement. */
module AccessorReplacer {
  import opened Results
  import opened ScriptAst

  /** An `astReplaceInfo`: the origin node, by identity, and its replacement. */
  datatype Replacement = Replacement(origin: NodeId, modified: Expr)

  /** Index of the first pending pair whose origin is `id`, or `|todo|`. */
  function FirstMatch(todo: seq<Replacement>, id: NodeId): (i: nat)
    ensures i <= |todo|
    ensures i < |todo| ==> todo[i].origin == id
    ensures forall j :: 0 <= j < i ==> todo[j].origin != id
  {
    if |todo| == 0 then 0
    else if todo[0].origin == id then 0
    else 1 + FirstMatch(todo[1..], id)
  }

  /** `_replaceToDo.splice(i, 1)`. */
  function RemoveAt(todo: seq<Replacement>, i: nat): seq<Replacement>
    requires i < |todo|
  {
    todo[..i] + todo[i + 1..]
  }

  /** `visit(node)`: a matching node is swapped for its replacement, which is
      not visited, and the pair is consumed; any other node is rebuilt from
      its visited children. Returns the new node and the pairs still pending. */
  function Replace(e: Expr, todo: seq<Replacement>): (Expr, seq<Replacement>)
    decreases e, 1
  {
    var i := FirstMatch(todo, e.id);
    if i < |todo| then (todo[i].modified, RemoveAt(todo, i))
    else
      var (ks, rest) := ReplaceFrom(e, 0, todo);
      (WithKids(e, ks), rest)
  }

  /** Visit `Kids(e)[i..]` in order, threading the pending pairs. */
  function ReplaceFrom(e: Expr, i: nat, todo: seq<Replacement>): (r: (seq<Expr>, seq<Replacement>))
    requires i <= |Kids(e)|
    ensures |r.0| == |Kids(e)| - i
    decreases e, 0, |Kids(e)| - i
  {
    if i == |Kids(e)| then ([], todo)
    else
      var (k, rest) := Replace(Kids(e)[i], todo);
      var (ks, rest') := ReplaceFrom(e, i + 1, rest);
      ([k] + ks, rest')
  }

  /** `replaceAccessors(ast, replaceToDo)`: works on a copy of the list, so
      the caller's pairs are untouched; leftover pairs are dropped silently. */
  function ReplaceAccessors(ast: Expr, replaceToDo: seq<Replacement>): Expr {
    Replace(ast, replaceToDo).0
  }

  // ---------------------------------------------------------------------
  // Reference: simultaneous top-down substitution

  /** The replacement of the first pair whose origin is `id`, if any. */
  function Find(todo: seq<Replacement>, id: NodeId): Option<Expr> {
    if |todo| == 0 then None
    else if todo[0].origin == id then Some(todo[0].modified)
    else Find(todo[1..], id)
  }

  /** Replace every topmost node whose id is an origin. */
  function Subst(e: Expr, todo: seq<Replacement>): Expr
    decreases e, 1
  {
    match Find(todo, e.id)
    case Some(m) => m
    case None => WithKids(e, SubstFrom(e, 0, todo))
  }

  function SubstFrom(e: Expr, i: nat, todo: seq<Replacement>): (r: seq<Expr>)
    requires i <= |Kids(e)|
    ensures |r| == |Kids(e)| - i
    decreases e, 0, |Kids(e)| - i
  {
    if i == |Kids(e)| then [] else [Subst(Kids(e)[i], todo)] + SubstFrom(e, i + 1, todo)
  }

  function Origins(todo: seq<Replacement>): set<NodeId> {
    set p | p in todo :: p.origin
  }

  predicate DistinctOrigins(todo: seq<Replacement>) {
    forall i, j :: 0 <= i < j < |todo| ==> todo[i].origin != todo[j].origin
  }

  /** The pairs whose origin is not in `h`, in order. */
  function Drop(todo: seq<Replacement>, h: set<NodeId>): (r: seq<Replacement>)
    ensures |r| <= |todo|
  {
    if |todo| == 0 then []
    else (if todo[0].origin in h then [] else [todo[0]]) + Drop(todo[1..], h)
  }

  /** Ids in `o` of the nodes a visit of `e` reaches (not below a hit). */
  function Hit(e: Expr, o: set<NodeId>): set<NodeId>
    decreases e, 1
  {
    if e.id in o then {e.id} else HitFrom(e, 0, o)
  }

  function HitFrom(e: Expr, i: nat, o: set<NodeId>): set<NodeId>
    requires i <= |Kids(e)|
    decreases e, 0, |Kids(e)| - i
  {
    if i == |Kids(e)| then {} else Hit(Kids(e)[i], o) + HitFrom(e, i + 1, o)
  }

  /** No origin node has another origin below it. */
  ghost predicate OriginsDisjoint(e: Expr, o: set<NodeId>)
    decreases e, 1
  {
    && (e.id in o ==> IdsFrom(e, 0) !! o)
    && OriginsDisjointFrom(e, 0, o)
  }

  ghost predicate OriginsDisjointFrom(e: Expr, i: nat, o: set<NodeId>)
    requires i <= |Kids(e)|
    decreases e, 0, |Kids(e)| - i
  {
    i < |Kids(e)| ==> OriginsDisjoint(Kids(e)[i], o) && OriginsDisjointFrom(e, i + 1, o)
  }

  // ---------------------------------------------------------------------
  // Helper facts

  lemma {:induction false} IdsFromContains(e: Expr, i: nat, j: nat)
    requires i <= j < |Kids(e)|
    ensures Ids(Kids(e)[j]) <= IdsFrom(e, i)
    decreases |Kids(e)| - i
  {
    if i < j {
      IdsFromContains(e, i + 1, j);
    }
  }

  lemma {:induction false} FindDrop(todo: seq<Replacement>, h: set<NodeId>, x: NodeId)
    requires x !in h
    ensures Find(Drop(todo, h), x) == Find(todo, x)
  {
    if |todo| > 0 {
      FindDrop(todo[1..], h, x);
      if todo[0].origin !in h {
        assert Drop(todo, h) == [todo[0]] + Drop(todo[1..], h);
        assert Drop(todo, h)[1..] == Drop(todo[1..], h);
      } else {
        assert Drop(todo, h) == [] + Drop(todo[1..], h) == Drop(todo[1..], h);
      }
    }
  }

  lemma {:induction false} DropDrop(todo: seq<Replacement>, a: set<NodeId>, b: set<NodeId>)
    ensures Drop(Drop(todo, a), b) == Drop(todo, a + b)
  {
    if |todo| > 0 {
      DropDrop(todo[1..], a, b);
      var head := if todo[0].origin in a then [] else [todo[0]];
      assert Drop(todo, a) == head + Drop(todo[1..], a);
      if todo[0].origin !in a {
        assert (head + Drop(todo[1..], a))[1..] == Drop(todo[1..], a);
      } else {
        assert head + Drop(todo[1..], a) == Drop(todo[1..], a);
      }
    }
  }

  lemma {:induction false} DropOrigins(todo: seq<Replacement>, h: set<NodeId>)
    ensures Origins(Drop(todo, h)) == Origins(todo) - h
    ensures forall p :: p in Drop(todo, h) ==> p in todo
  {
    if |todo| > 0 {
      DropOrigins(todo[1..], h);
      OriginsCons(todo);
      if todo[0].origin !in h {
        assert Drop(todo, h) == [todo[0]] + Drop(todo[1..], h);
        OriginsCons(Drop(todo, h));
        assert Drop(todo, h)[1..] == Drop(todo[1..], h);
      } else {
        assert Drop(todo, h) == [] + Drop(todo[1..], h) == Drop(todo[1..], h);
      }
    }
  }

  lemma OriginsCons(todo: seq<Replacement>)
    requires |todo| > 0
    ensures Origins(todo) == {todo[0].origin} + Origins(todo[1..])
    ensures forall p :: p in todo <==> p == todo[0] || p in todo[1..]
  {
    assert todo == [todo[0]] + todo[1..];
  }

  lemma {:induction false} DropDistinct(todo: seq<Replacement>, h: set<NodeId>)
    requires DistinctOrigins(todo)
    ensures DistinctOrigins(Drop(todo, h))
  {
    if |todo| > 0 {
      DropDistinct(todo[1..], h);
      DropOrigins(todo[1..], h);
      assert todo[0].origin !in Origins(todo[1..]);
    }
  }

  lemma {:induction false} DropDisjoint(todo: seq<Replacement>, h: set<NodeId>)
    requires Origins(todo) !! h
    ensures Drop(todo, h) == todo
  {
    if |todo| > 0 {
      assert todo[0].origin in Origins(todo);
      assert Origins(todo[1..]) <= Origins(todo);
      DropDisjoint(todo[1..], h);
      assert todo == [todo[0]] + todo[1..];
    }
  }

  lemma {:induction false} DropAll(todo: seq<Replacement>)
    ensures Drop(todo, Origins(todo)) == []
  {
    if |todo| > 0 {
      assert Origins(todo[1..]) <= Origins(todo);
      DropAllWithin(todo[1..], Origins(todo));
    }
  }

  lemma {:induction false} DropAllWithin(todo: seq<Replacement>, h: set<NodeId>)
    requires Origins(todo) <= h
    ensures Drop(todo, h) == []
  {
    if |todo| > 0 {
      assert todo[0].origin in Origins(todo);
      assert Origins(todo[1..]) <= Origins(todo);
      DropAllWithin(todo[1..], h);
    }
  }

  lemma {:induction false} RemoveAtIsDrop(todo: seq<Replacement>, i: nat)
    requires i < |todo|
    requires DistinctOrigins(todo)
    requires forall j :: 0 <= j < i ==> todo[j].origin != todo[i].origin
    ensures RemoveAt(todo, i) == Drop(todo, {todo[i].origin})
  {
    var x := todo[i].origin;
    if i == 0 {
      DropDisjoint(todo[1..], {x});
    } else {
      assert todo[1..][i - 1] == todo[i];
      RemoveAtIsDrop(todo[1..], i - 1);
      assert RemoveAt(todo, i) == [todo[0]] + RemoveAt(todo[1..], i - 1);
    }
  }

  lemma {:induction false} FindIsFirstMatch(todo: seq<Replacement>, id: NodeId)
    ensures Find(todo, id).Some? <==> FirstMatch(todo, id) < |todo|
    ensures Find(todo, id).Some? ==> Find(todo, id).value == todo[FirstMatch(todo, id)].modified
  {
    if |todo| > 0 && todo[0].origin != id {
      FindIsFirstMatch(todo[1..], id);
    }
  }

  lemma {:induction false} OriginIffMatch(todo: seq<Replacement>, id: NodeId)
    ensures id in Origins(todo) <==> FirstMatch(todo, id) < |todo|
  {
    if |todo| > 0 {
      assert todo[0] in todo;
      OriginIffMatch(todo[1..], id);
      assert todo == [todo[0]] + todo[1..];
      assert Origins(todo) == {todo[0].origin} + Origins(todo[1..]);
    }
  }

  lemma {:induction false} SubstFrame(e: Expr, t1: seq<Replacement>, t2: seq<Replacement>)
    requires forall x :: x in Ids(e) ==> Find(t1, x) == Find(t2, x)
    ensures Subst(e, t1) == Subst(e, t2)
    decreases e, 1
  {
    if Find(t1, e.id).None? {
      SubstFromFrame(e, 0, t1, t2);
    }
  }

  lemma {:induction false} SubstFromFrame(e: Expr, i: nat, t1: seq<Replacement>, t2: seq<Replacement>)
    requires i <= |Kids(e)|
    requires forall x :: x in IdsFrom(e, i) ==> Find(t1, x) == Find(t2, x)
    ensures SubstFrom(e, i, t1) == SubstFrom(e, i, t2)
    decreases e, 0, |Kids(e)| - i
  {
    if i < |Kids(e)| {
      SubstFrame(Kids(e)[i], t1, t2);
      SubstFromFrame(e, i + 1, t1, t2);
    }
  }

  lemma Restrict(o1: set<NodeId>, o2: set<NodeId>, a: set<NodeId>, b: set<NodeId>)
    requires a <= b && o1 * b == o2 * b
    ensures o1 * a == o2 * a
  {
    forall x | x in a
      ensures x in o1 <==> x in o2
    {
      assert x in o1 <==> x in o1 * b;
      assert x in o2 <==> x in o2 * b;
    }
  }

  lemma {:induction false} HitFrame(e: Expr, o1: set<NodeId>, o2: set<NodeId>)
    requires o1 * Ids(e) == o2 * Ids(e)
    ensures Hit(e, o1) == Hit(e, o2)
    ensures Hit(e, o1) <= o1 * Ids(e)
    decreases e, 1
  {
    assert e.id in Ids(e);
    assert e.id in o1 <==> e.id in o1 * Ids(e);
    assert e.id in o2 <==> e.id in o2 * Ids(e);
    assert IdsFrom(e, 0) <= Ids(e);
    if e.id !in o1 {
      Restrict(o1, o2, IdsFrom(e, 0), Ids(e));
      HitFromFrame(e, 0, o1, o2);
    }
  }

  lemma {:induction false} HitFromFrame(e: Expr, i: nat, o1: set<NodeId>, o2: set<NodeId>)
    requires i <= |Kids(e)|
    requires o1 * IdsFrom(e, i) == o2 * IdsFrom(e, i)
    ensures HitFrom(e, i, o1) == HitFrom(e, i, o2)
    ensures HitFrom(e, i, o1) <= o1 * IdsFrom(e, i)
    decreases e, 0, |Kids(e)| - i
  {
    if i < |Kids(e)| {
      Restrict(o1, o2, Ids(Kids(e)[i]), IdsFrom(e, i));
      Restrict(o1, o2, IdsFrom(e, i + 1), IdsFrom(e, i));
      HitFrame(Kids(e)[i], o1, o2);
      HitFromFrame(e, i + 1, o1, o2);
    }
  }

  // ---------------------------------------------------------------------
  // Properties

  /** A tree holding no pending origin comes back unchanged, with every pair
      still pending. */
  lemma {:induction false} ReplaceUnmatched(e: Expr, todo: seq<Replacement>)
    requires Ids(e) !! Origins(todo)
    ensures Replace(e, todo) == (e, todo)
    decreases e, 1
  {
    OriginIffMatch(todo, e.id);
    ReplaceFromUnmatched(e, 0, todo);
    WithOwnKids(e);
  }

  lemma {:induction false} ReplaceFromUnmatched(e: Expr, i: nat, todo: seq<Replacement>)
    requires i <= |Kids(e)|
    requires IdsFrom(e, i) !! Origins(todo)
    ensures ReplaceFrom(e, i, todo) == (Kids(e)[i..], todo)
    decreases e, 0, |Kids(e)| - i
  {
    if i < |Kids(e)| {
      var k := Kids(e)[i];
      assert IdsFrom(e, i) == Ids(k) + IdsFrom(e, i + 1);
      ReplaceUnmatched(k, todo);
      ReplaceFromUnmatched(e, i + 1, todo);
      ReplaceFromStep(e, i, todo, k, todo, Kids(e)[i + 1..], todo);
      SuffixCons(Kids(e), i);
    } else {
      assert Kids(e)[i..] == [];
    }
  }

  /** Each pair is consumed at most once, and only a pair whose origin is a
      node of the tree can be consumed. */
  lemma {:induction false} ReplaceConsumesAtMostOnce(e: Expr, todo: seq<Replacement>)
    ensures multiset(Replace(e, todo).1) <= multiset(todo)
    ensures forall p :: p in todo && p.origin !in Ids(e) ==>
              multiset(Replace(e, todo).1)[p] == multiset(todo)[p]
    decreases e, 1
  {
    var i := FirstMatch(todo, e.id);
    if i < |todo| {
      assert todo == todo[..i] + [todo[i]] + todo[i + 1..];
      assert multiset(todo) == multiset(RemoveAt(todo, i)) + multiset{todo[i]};
      assert e.id in Ids(e);
    } else {
      ReplaceFromConsumesAtMostOnce(e, 0, todo);
    }
  }

  lemma {:induction false} ReplaceFromConsumesAtMostOnce(e: Expr, i: nat, todo: seq<Replacement>)
    requires i <= |Kids(e)|
    ensures multiset(ReplaceFrom(e, i, todo).1) <= multiset(todo)
    ensures forall p :: p in todo && p.origin !in IdsFrom(e, i) ==>
              multiset(ReplaceFrom(e, i, todo).1)[p] == multiset(todo)[p]
    decreases e, 0, |Kids(e)| - i
  {
    if i < |Kids(e)| {
      var k := Kids(e)[i];
      var rest := Replace(k, todo).1;
      var rest' := ReplaceFrom(e, i + 1, rest).1;
      assert && multiset(rest') <= multiset(todo)
             && forall p :: p in todo && p.origin !in IdsFrom(e, i) ==> multiset(rest')[p] == multiset(todo)[p] by {
        ReplaceConsumesAtMostOnce(k, todo);
        ReplaceFromConsumesAtMostOnce(e, i + 1, rest);
        ConsumedInTurn(todo, rest, rest', Ids(k), IdsFrom(e, i + 1));
        IdsFromCons(e, i);
      }
      ReplaceFromStep(e, i, todo, Replace(k, todo).0, rest, ReplaceFrom(e, i + 1, rest).0, rest');
    }
  }

  /** Two visits in turn consume at most once between them, and only pairs
      whose origin one of them holds. */
  lemma ConsumedInTurn(todo: seq<Replacement>, rest: seq<Replacement>, rest': seq<Replacement>,
                       a: set<NodeId>, b: set<NodeId>)
    requires multiset(rest) <= multiset(todo)
    requires forall p :: p in todo && p.origin !in a ==> multiset(rest)[p] == multiset(todo)[p]
    requires multiset(rest') <= multiset(rest)
    requires forall p :: p in rest && p.origin !in b ==> multiset(rest')[p] == multiset(rest)[p]
    ensures multiset(rest') <= multiset(todo)
    ensures forall p :: p in todo && p.origin !in a + b ==> multiset(rest')[p] == multiset(todo)[p]
  {
    forall p | p in todo && p.origin !in a + b
      ensures multiset(rest')[p] == multiset(todo)[p]
    {
      assert multiset(rest)[p] == multiset(todo)[p];
      assert p in rest;
    }
  }

  /** With distinct origins and one id per node, the pass is exactly the
      top-down substitution, and the pairs left pending are those whose
      origin it never reached. */
  lemma {:induction false} ReplaceIsSubstitution(e: Expr, todo: seq<Replacement>)
    requires UniqueIds(e)
    requires DistinctOrigins(todo)
    ensures Replace(e, todo) == (Subst(e, todo), Drop(todo, Hit(e, Origins(todo))))
    decreases e, 1
  {
    var i := FirstMatch(todo, e.id);
    FindIsFirstMatch(todo, e.id);
    OriginIffMatch(todo, e.id);
    if i < |todo| {
      RemoveAtIsDrop(todo, i);
    } else {
      ReplaceFromIsSubstitution(e, 0, todo);
    }
  }

  lemma {:induction false} ReplaceFromIsSubstitution(e: Expr, i: nat, todo: seq<Replacement>)
    requires i <= |Kids(e)|
    requires UniqueIdsFrom(e, i)
    requires DistinctOrigins(todo)
    ensures ReplaceFrom(e, i, todo) == (SubstFrom(e, i, todo), Drop(todo, HitFrom(e, i, Origins(todo))))
    decreases e, 0, |Kids(e)| - i
  {
    if i < |Kids(e)| {
      var k := Kids(e)[i];
      var o := Origins(todo);
      var h := Hit(k, o);
      var rest := Drop(todo, h);
      ReplaceIsSubstitution(k, todo);
      DropDistinct(todo, h);
      ReplaceFromIsSubstitution(e, i + 1, rest);
      LaterKidsSubst(e, i, todo, h, rest);
      LaterKidsPending(e, i, todo, h, rest);
      ReplaceFromStep(e, i, todo, Subst(k, todo), rest, SubstFrom(e, i + 1, todo), Drop(todo, HitFrom(e, i, o)));
    } else {
      DropDisjoint(todo, {});
    }
  }

  /** One step of the kid loop: visit kid `i`, then the kids after it. */
  lemma ReplaceFromStep(e: Expr, i: nat, todo: seq<Replacement>, x: Expr, rest: seq<Replacement>,
                        xs: seq<Expr>, rest': seq<Replacement>)
    requires i < |Kids(e)|
    requires Replace(Kids(e)[i], todo) == (x, rest) && ReplaceFrom(e, i + 1, rest) == (xs, rest')
    ensures ReplaceFrom(e, i, todo) == ([x] + xs, rest')
  {
  }

  /** The pairs a kid consumes lie inside that kid, so the later kids are
      substituted alike with the pairs before or after it. */
  lemma LaterKidsSubst(e: Expr, i: nat, todo: seq<Replacement>, h: set<NodeId>, rest: seq<Replacement>)
    requires i < |Kids(e)| && UniqueIdsFrom(e, i)
    requires h == Hit(Kids(e)[i], Origins(todo)) && rest == Drop(todo, h)
    ensures SubstFrom(e, i + 1, rest) == SubstFrom(e, i + 1, todo)
  {
    var o := Origins(todo);
    HitFrame(Kids(e)[i], o, o);
    forall x | x in IdsFrom(e, i + 1)
      ensures Find(rest, x) == Find(todo, x)
    {
      FindDrop(todo, h, x);
    }
    SubstFromFrame(e, i + 1, rest, todo);
  }

  /** The later kids reach the same origins whether or not the first kid's
      pairs are still pending, so dropping in two steps is dropping what the
      whole visit reaches. */
  lemma LaterKidsPending(e: Expr, i: nat, todo: seq<Replacement>, h: set<NodeId>, rest: seq<Replacement>)
    requires i < |Kids(e)| && UniqueIdsFrom(e, i)
    requires h == Hit(Kids(e)[i], Origins(todo)) && rest == Drop(todo, h)
    ensures Drop(rest, HitFrom(e, i + 1, Origins(rest))) == Drop(todo, HitFrom(e, i, Origins(todo)))
  {
    var o := Origins(todo);
    HitFrame(Kids(e)[i], o, o);
    DropOrigins(todo, h);
    assert Origins(rest) * IdsFrom(e, i + 1) == o * IdsFrom(e, i + 1);
    HitFromFrame(e, i + 1, Origins(rest), o);
    DropDrop(todo, h, HitFrom(e, i + 1, o));
  }

  /** When no origin lies below another, a visit reaches every origin of the
      tree. */
  lemma {:induction false} DisjointOriginsAllHit(e: Expr, o: set<NodeId>)
    requires UniqueIds(e)
    requires OriginsDisjoint(e, o)
    ensures Hit(e, o) == o * Ids(e)
    decreases e, 1
  {
    if e.id !in o {
      DisjointOriginsAllHitFrom(e, 0, o);
    }
  }

  lemma {:induction false} DisjointOriginsAllHitFrom(e: Expr, i: nat, o: set<NodeId>)
    requires i <= |Kids(e)|
    requires UniqueIdsFrom(e, i)
    requires OriginsDisjointFrom(e, i, o)
    ensures HitFrom(e, i, o) == o * IdsFrom(e, i)
    decreases e, 0, |Kids(e)| - i
  {
    if i < |Kids(e)| {
      DisjointOriginsAllHit(Kids(e)[i], o);
      DisjointOriginsAllHitFrom(e, i + 1, o);
    }
  }

  /** Distinct, non-nested origins that all occur in the tree are each
      consumed exactly once, and the result is the substitution. */
  lemma ReplaceConsumesEveryPair(e: Expr, todo: seq<Replacement>)
    requires UniqueIds(e)
    requires DistinctOrigins(todo)
    requires Origins(todo) <= Ids(e)
    requires OriginsDisjoint(e, Origins(todo))
    ensures Replace(e, todo) == (Subst(e, todo), [])
  {
    ReplaceIsSubstitution(e, todo);
    DisjointOriginsAllHit(e, Origins(todo));
    assert Hit(e, Origins(todo)) == Origins(todo);
    DropAll(todo);
  }
}
