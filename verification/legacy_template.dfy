/** The first template translator (`index.ts`), which the newer one
    replaced: the same rename switch, applied to each attribute on its own,
    with no `trackBy`, no class/style merging, no deletions and no
    `v-for` + `v-if` wrapper. */
module LegacyTemplate {
  import opened JsString
  import opened Markup
  import opened BindValues
  import opened TemplateTranslator

  /** The bindings the first translator knows: `v-bind:x` becomes `x` with
      an interpolation, any other unlisted `v-` name is left as it is (the
      source only logs it); `:kay` is left as it is, `:class` only loses its
      colon, and any other `:x` becomes `x` with an interpolation. */
  function LegacyBind(a: Attr): Attr {
    var n := a.name;
    if |n| >= 2 && n[..2] == "v-" then
      if |n| >= 7 && n[..7] == "v-bind:" then a.(name := n[7..], value := "{{ " + a.value + " }}")
      else a
    else if |n| >= 1 && n[0] == ':' then
      if n == ":kay" then a
      else if n == ":class" then a.(name := "class")
      else a.(name := n[1..], value := "{{ " + a.value + " }}")
    else a
  }

  /** `modifyVueAttr(attr)` of the first translator. Its switch lists the
      same `v-` names as the newer one, so the dispatch is shared; only
      `v-for` (no `trackBy`) and the bindings differ. */
  function LegacyModifyAttr(a: Attr): (r: Attr)
    ensures r.deleted == a.deleted
  {
    match RuleOf(a.name)
    case Rename(to) => a.(name := to)
    case ForRule => a.(name := "s-for", value := RemoveParens(a.value))
    case ModelRule => a.(name := "value", value := "{= " + a.value + " =}")
    case EventRule => a.(name := "on-" + a.name[1..])
    case BindRule => LegacyBind(a)
    case Unchanged => a
  }

  /** The attribute loop from index `i` on: step `i` rewrites the
      attribute at `i` in the list as the earlier steps left it. */
  function LegacyPassFrom(attrs: seq<Attr>, i: nat): (r: seq<Attr>)
    requires i <= |attrs|
    ensures |r| == |attrs|
    decreases |attrs| - i
  {
    if i == |attrs| then attrs
    else LegacyPassFrom(attrs[i := LegacyModifyAttr(attrs[i])], i + 1)
  }

  /** The attribute loop of `walkVueTemplate`, run over the whole list. */
  function LegacyModifyAttrs(attrs: seq<Attr>): (r: seq<Attr>)
    ensures |r| == |attrs|
  {
    LegacyPassFrom(attrs, 0)
  }

  /** `walkVueTemplate(doc)` of the first translator: attributes, then
      children; a `template` element's content is not walked. */
  function LegacyWalk(n: Node): Node
    decreases n
  {
    match n
    case Element(tag, attrs, kids) =>
      Element(tag, LegacyModifyAttrs(attrs), seq(|kids|, j requires 0 <= j < |kids| => LegacyWalk(kids[j])))
    case Template(attrs, content) => Template(LegacyModifyAttrs(attrs), content)
    case Fragment(kids) => Fragment(seq(|kids|, j requires 0 <= j < |kids| => LegacyWalk(kids[j])))
    case Text(_) => n
  }

  // ---------------------------------------------------------------------
  // Properties

  /** The same attributes in the same places, whatever their names. */
  predicate SameAttrCounts(a: Node, b: Node)
    decreases a
  {
    match a
    case Element(_, attrs, kids) =>
      b.Element? && |b.attrs| == |attrs| && |b.children| == |kids|
      && forall j :: 0 <= j < |kids| ==> SameAttrCounts(kids[j], b.children[j])
    case Template(attrs, _) => b.Template? && |b.attrs| == |attrs|
    case Fragment(kids) =>
      b.Fragment? && |b.children| == |kids|
      && forall j :: 0 <= j < |kids| ==> SameAttrCounts(kids[j], b.children[j])
    case Text(_) => b.Text?
  }

  /** The pass from `i` leaves the attributes before `i` alone and
      rewrites each later one from its original value: no step sees
      another step's output. */
  lemma {:induction false} LegacyPassFromPointwise(attrs: seq<Attr>, i: nat)
    requires i <= |attrs|
    ensures forall k :: 0 <= k < i ==> LegacyPassFrom(attrs, i)[k] == attrs[k]
    ensures forall k :: i <= k < |attrs| ==> LegacyPassFrom(attrs, i)[k] == LegacyModifyAttr(attrs[k])
    decreases |attrs| - i
  {
    if i < |attrs| {
      var next := attrs[i := LegacyModifyAttr(attrs[i])];
      LegacyPassFromPointwise(next, i + 1);
    }
  }

  /** The in-place loop is the pointwise map: every attribute is rewritten
      on its own, in its place, and none is added or removed. */
  lemma LegacyModifyAttrsPointwise(attrs: seq<Attr>)
    ensures LegacyModifyAttrs(attrs) == seq(|attrs|, k requires 0 <= k < |attrs| => LegacyModifyAttr(attrs[k]))
  {
    LegacyPassFromPointwise(attrs, 0);
  }

  /** The first translator never restructures the tree and never drops an
      attribute. */
  lemma {:induction false} LegacyWalkKeepsShape(n: Node)
    ensures SameShape(n, LegacyWalk(n))
    ensures SameAttrCounts(n, LegacyWalk(n))
    decreases n
  {
    match n
    case Element(_, _, kids) =>
      forall j | 0 <= j < |kids|
        ensures SameShape(kids[j], LegacyWalk(kids[j])) && SameAttrCounts(kids[j], LegacyWalk(kids[j]))
      {
        LegacyWalkKeepsShape(kids[j]);
      }
    case Template(_, _) =>
    case Fragment(kids) =>
      forall j | 0 <= j < |kids|
        ensures SameShape(kids[j], LegacyWalk(kids[j])) && SameAttrCounts(kids[j], LegacyWalk(kids[j]))
      {
        LegacyWalkKeepsShape(kids[j]);
      }
    case Text(_) =>
  }

  /** The two translators agree on a lone attribute except on bindings:
      renames, `v-model`, events, `v-for` without a `:key` beside it, and
      untouched names come out the same. */
  lemma LegacyAgreesOutsideBindings(a: Attr, parse: BindParser)
    requires RuleOf(a.name) != BindRule
    ensures ModifyAttrAt([a], 0, parse) == [LegacyModifyAttr(a)]
  {
    if RuleOf(a.name) == ForRule {
      FirstNamedIs([a], ":key", 1);
      ForAbsorbsKey([a], 0, 1, parse);
    }
  }

  /** With a `:key` beside it, the first translator leaves the key as a
      plain binding instead of absorbing it into `trackBy`. */
  lemma LegacyForIgnoresKey(forValue: string, keyValue: string)
    ensures LegacyModifyAttrs([Attr("v-for", forValue, false), Attr(":key", keyValue, false)])
         == [Attr("s-for", RemoveParens(forValue), false), Attr("key", "{{ " + keyValue + " }}", false)]
  {
    var f := Attr("v-for", forValue, false);
    var k := Attr(":key", keyValue, false);
    LegacyModifyAttrsPointwise([f, k]);
    assert RuleOf(f.name) == ForRule by { assert f.name[..2] == "v-"; }
    assert RuleOf(k.name) == BindRule by { assert |k.name| >= 2 ==> k.name[..2][0] == ':'; }
    assert k.name != ":kay" by { assert k.name[2] != ":kay"[2]; }
    assert k.name != ":class" by { assert |k.name| != |":class"|; }
    assert k.name[1..] == "key" && k.name[0] == ':';
    assert !(k.name[..2] == "v-") by { assert k.name[..2][0] == ':'; }
    var r := LegacyModifyAttrs([f, k]);
    assert r[0] == LegacyModifyAttr(f) == Attr("s-for", RemoveParens(forValue), false);
    assert r[1] == LegacyModifyAttr(k) == Attr("key", "{{ " + keyValue + " }}", false);
  }

  /** `:class` only loses its colon: the bound expression is kept as the
      class text, without interpolation. */
  lemma LegacyClassKeepsExpression(a: Attr)
    requires a.name == ":class"
    ensures LegacyModifyAttr(a) == a.(name := "class")
  {
    assert RuleOf(a.name) == BindRule by { assert a.name[..2][0] == ':'; }
    assert a.name != ":kay" by { assert |a.name| != |":kay"|; }
    assert !(a.name[..2] == "v-") by { assert a.name[..2][0] == ':'; }
    assert a.name[0] == ':';
  }

  /** `:x` becomes `x` with an interpolation for every `x` other than
      `kay` and `class` (`:href="some.test"` gives `href="{{ some.test }}"`). */
  lemma LegacyColonBind(a: Attr, x: string)
    requires a.name == ":" + x && x != "kay" && x != "class"
    ensures LegacyModifyAttr(a) == a.(name := x, value := "{{ " + a.value + " }}")
  {
    var n := a.name;
    assert n[0] == ':' && n[1..] == x;
    assert ":kay"[1..] == "kay" && ":class"[1..] == "class";
    assert RuleOf(n) == BindRule by { assert |n| >= 2 ==> n[..2][0] == ':'; }
    assert !(|n| >= 2 && n[..2] == "v-") by { assert |n| >= 2 ==> n[..2][0] == ':'; }
  }

  /** `v-bind:x` becomes `x` with an interpolation for every `x`, with no
      filter split and no class or style merging. */
  lemma LegacyVBind(a: Attr, x: string)
    requires a.name == "v-bind:" + x
    ensures LegacyModifyAttr(a) == a.(name := x, value := "{{ " + a.value + " }}")
  {
    var n := a.name;
    assert n[..2] == "v-" && n[..7] == "v-bind:" && n[7..] == x;
    assert n[6] == ':';
    ColonNotSwitch(n);
  }

  /** Every unlisted `v-` name that is not a `v-bind:` one, such as
      `v-on:click`, is left as it is (where the newer translator drops its
      first character). */
  lemma LegacyUnknownDirectiveUntouched(a: Attr)
    requires |a.name| >= 2 && a.name[..2] == "v-" && !SwitchName(a.name)
    requires !(|a.name| >= 7 && a.name[..7] == "v-bind:")
    ensures LegacyModifyAttr(a) == a
  {
  }
}
