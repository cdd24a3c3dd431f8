/** The newer template translator: the attribute rename table, `v-for`
    with `trackBy` absorption of `:key`, `:class` / `:style` merging, the
    two-phase mark-then-purge of attributes, and the desugaring of
    `v-for` + `v-if` into a wrapping `template`. */
module TemplateTranslator {
  import opened Results
  import opened JsString
  import opened Markup
  import opened BindValues

  /** `_attrName`: the text after `v-bind:`, or else after the first
      character. */
  function BindTarget(name: string): string {
    if |name| >= 7 && name[..7] == "v-bind:" then name[7..]
    else if |name| >= 1 then name[1..]
    else ""
  }

  /** `filter ? '| ' + filter : ''`: an absent or empty filter adds nothing. */
  function FilterSuffix(filter: Option<string>): string {
    if filter.Some? && filter.value != "" then "| " + filter.value else ""
  }

  /** The text of the first attribute called `name`, or `""` without one. */
  function StaticText(attrs: seq<Attr>, name: string): string {
    var k := FirstNamed(attrs, name);
    if k < |attrs| then attrs[k].value else ""
  }

  /** Marks the first attribute called `name` deleted, then makes attribute
      `i` into `name` with text `text`. */
  function MergeInto(attrs: seq<Attr>, i: nat, name: string, text: string): (r: seq<Attr>)
    requires i < |attrs|
    ensures |r| == |attrs|
  {
    var k := FirstNamed(attrs, name);
    var marked := if k < |attrs| then attrs[k := attrs[k].(deleted := true)] else attrs;
    marked[i := marked[i].(name := name, value := text)]
  }

  /** `processAttrBind(attrs[i], attrs)`. The bound name `kay` is left as
      it is. A `class` or `style` target marks the first attribute then
      named `class` / `style` deleted and merges its text in front of the
      binding. Any other target becomes an interpolation of the value. */
  function ProcessAttrBind(attrs: seq<Attr>, i: nat, parse: BindParser): (r: seq<Attr>)
    requires i < |attrs|
    ensures |r| == |attrs|
  {
    var a := attrs[i];
    var (attrname, filter) := SplitDot(BindTarget(a.name));
    if attrname == "kay" then attrs
    else if attrname == "class" then
      MergeInto(attrs, i, "class", VueClassToSanClass(a.value, StaticText(attrs, "class"), parse))
    else if attrname == "style" then
      MergeInto(attrs, i, "style", VueStyleToSanStyle(a.value, StaticText(attrs, "style"), parse))
    else
      attrs[i := a.(name := attrname, value := "{{ " + a.value + FilterSuffix(filter) + " }}")]
  }

  /** `modifyVueFor(attrs[i], attrs)`: rename to `s-for` and drop the
      parentheses; then an attribute still named `:key` is marked deleted
      and its value appended after ` trackBy `. */
  function ModifyFor(attrs: seq<Attr>, i: nat): (r: seq<Attr>)
    requires i < |attrs|
    ensures |r| == |attrs|
  {
    var renamed := attrs[i := attrs[i].(name := "s-for", value := RemoveParens(attrs[i].value))];
    var k := FirstNamed(renamed, ":key");
    if k < |renamed| then
      var marked := renamed[k := renamed[k].(deleted := true)];
      marked[i := marked[i].(value := marked[i].value + " trackBy " + renamed[k].value)]
    else renamed
  }

  /** What `modifyVueAttr` does with an attribute, decided by its name. */
  datatype Rule = Rename(to: string) | ForRule | ModelRule | EventRule | BindRule | Unchanged

  /** The rename switch for `v-` names (an unlisted `v-` name falls to
      `processAttrBind`), then `@` events, then `:` bindings. */
  function RuleOf(n: string): Rule {
    if |n| >= 2 && n[..2] == "v-" then
      match n
      case "v-text" => Rename("s-text")
      case "v-html" => Rename("s-html")
      case "v-show" => Rename("s-if")
      case "v-if" => Rename("s-if")
      case "v-else" => Rename("s-else")
      case "v-else-if" => Rename("s-else-if")
      case "v-for" => ForRule
      case "v-on" => Rename("s-on")
      case "v-model" => ModelRule
      case "v-pre" => Unchanged
      case "v-cloak" => Unchanged
      case "v-once" => Unchanged
      case _ => BindRule
    else if |n| >= 1 && n[0] == '@' then EventRule
    else if |n| >= 1 && n[0] == ':' then BindRule
    else Unchanged
  }

  /** `modifyVueAttr(attrs[i], attrs)`. */
  function ModifyAttrAt(attrs: seq<Attr>, i: nat, parse: BindParser): (r: seq<Attr>)
    requires i < |attrs|
    ensures |r| == |attrs|
  {
    var a := attrs[i];
    match RuleOf(a.name)
    case Rename(to) => attrs[i := a.(name := to)]
    case ForRule => ModifyFor(attrs, i)
    case ModelRule => attrs[i := a.(name := "value", value := "{= " + a.value + " =}")]
    case EventRule => attrs[i := a.(name := "on-" + a.name[1..])]
    case BindRule => ProcessAttrBind(attrs, i, parse)
    case Unchanged => attrs
  }

  /** The first loop of `modifyVueAttrs`, from index `i` on: each attribute
      is rewritten against the list as the earlier steps left it. */
  function MarkFrom(attrs: seq<Attr>, i: nat, parse: BindParser): (r: seq<Attr>)
    requires i <= |attrs|
    ensures |r| == |attrs|
    decreases |attrs| - i
  {
    if i == |attrs| then attrs
    else MarkFrom(ModifyAttrAt(attrs, i, parse), i + 1, parse)
  }

  /** The attributes not marked deleted, in order. */
  function Kept(attrs: seq<Attr>): (r: seq<Attr>)
    ensures forall k :: 0 <= k < |r| ==> !r[k].deleted
  {
    if |attrs| == 0 then []
    else (if attrs[0].deleted then [] else [attrs[0]]) + Kept(attrs[1..])
  }

  function CountDeleted(attrs: seq<Attr>): nat {
    if |attrs| == 0 then 0 else (if attrs[0].deleted then 1 else 0) + CountDeleted(attrs[1..])
  }

  /** The second loop of `modifyVueAttrs`: walk backwards, splicing out
      every attribute marked deleted. */
  method PurgeDeleted(attrs: seq<Attr>) returns (r: seq<Attr>)
    ensures r == Kept(attrs)
  {
    r := attrs;
    var i := |attrs| - 1;
    while i >= 0
      invariant -1 <= i < |attrs|
      invariant r == attrs[..i + 1] + Kept(attrs[i + 1..])
    {
      PurgeStep(attrs, r, i);
      if r[i].deleted {
        r := r[..i] + r[i + 1..];
      }
      i := i - 1;
    }
    assert attrs[0..] == attrs;
  }

  /** One backward step of the purge keeps the loop's invariant. */
  lemma PurgeStep(attrs: seq<Attr>, r: seq<Attr>, i: nat)
    requires i < |attrs| && r == attrs[..i + 1] + Kept(attrs[i + 1..])
    ensures i < |r| && r[i] == attrs[i]
    ensures (if r[i].deleted then r[..i] + r[i + 1..] else r) == attrs[..i] + Kept(attrs[i..])
  {
    var pre, tail := attrs[..i], Kept(attrs[i + 1..]);
    assert r == pre + ([attrs[i]] + tail) by {
      assert attrs[..i + 1] == pre + [attrs[i]];
    }
    KeptStep(attrs, i);
    if attrs[i].deleted {
      assert r[..i] == pre && r[i + 1..] == tail;
    }
  }

  lemma KeptStep(attrs: seq<Attr>, i: nat)
    requires i < |attrs|
    ensures Kept(attrs[i..]) == (if attrs[i].deleted then [] else [attrs[i]]) + Kept(attrs[i + 1..])
  {
    assert attrs[i..][1..] == attrs[i + 1..];
  }

  /** `modifyVueAttrs(attrs)`: rewrite every attribute, then purge. */
  function ModifyVueAttrs(attrs: seq<Attr>, parse: BindParser): (r: seq<Attr>)
    ensures forall k :: 0 <= k < |r| ==> !r[k].deleted
  {
    Kept(MarkFrom(attrs, 0, parse))
  }

  // ---------------------------------------------------------------------
  // The walk

  predicate HasAttrs(n: Node) {
    n.Element? || n.Template?
  }

  /** Both `v-for` and `v-if` are present. */
  predicate NeedsWrapper(attrs: seq<Attr>) {
    FirstNamed(attrs, "v-for") < |attrs| && FirstNamed(attrs, "v-if") < |attrs|
  }

  /** The attributes of the wrapping `template` and those left on the
      element. */
  datatype Split = Split(wrapper: seq<Attr>, rest: seq<Attr>)

  /** The wrapper gets `[forAttr, keyAttr].filter(Boolean)`. The element
      loses `v-for` (`splice(indexOf(forAttr), 1)`) and then the position
      `indexOf(keyAttr)` in the shortened list, which is `-1` without a
      `:key`, so `splice(-1, 1)` takes its last attribute instead. */
  function SplitForIf(attrs: seq<Attr>): (r: Split)
    requires NeedsWrapper(attrs)
    ensures |r.rest| == |attrs| - 2
    ensures 1 <= |r.wrapper| <= 2 && r.wrapper[0].name == "v-for"
  {
    var f := FirstNamed(attrs, "v-for");
    var k := FirstNamed(attrs, ":key");
    var wrapper := [attrs[f]] + (if k < |attrs| then [attrs[k]] else []);
    var withoutFor := SpliceOne(attrs, f);
    var keyIndex: int := if k < |attrs| then (if k < f then k else k - 1) else -1;
    Split(wrapper, SpliceOne(withoutFor, keyIndex))
  }

  /** How the walk rewrites one attribute list. */
  type AttrRewrite = seq<Attr> -> seq<Attr>

  /** `walkVueTemplate(n, parentChildren)` for a node with a parent list:
      the node's attributes are rewritten by `rw` (after those of the
      wrapper, when one replaces it at its index), then its children in
      order. A `template` element's content is not walked. */
  function Walk(n: Node, rw: AttrRewrite): Node
    decreases n
  {
    match n
    case Element(tag, attrs, kids) =>
      var kids' := seq(|kids|, j requires 0 <= j < |kids| => Walk(kids[j], rw));
      if NeedsWrapper(attrs) then
        var s := SplitForIf(attrs);
        Template(rw(s.wrapper), [Element(tag, rw(s.rest), kids')])
      else Element(tag, rw(attrs), kids')
    case Template(attrs, content) =>
      if NeedsWrapper(attrs) then
        var s := SplitForIf(attrs);
        Template(rw(s.wrapper), [Template(rw(s.rest), content)])
      else Template(rw(attrs), content)
    case Fragment(kids) =>
      Fragment(seq(|kids|, j requires 0 <= j < |kids| => Walk(kids[j], rw)))
    case Text(_) => n
  }

  function Rewriter(parse: BindParser): AttrRewrite {
    attrs => ModifyVueAttrs(attrs, parse)
  }

  /** The walk with `modifyVueAttrs` as the rewrite. */
  function WalkNode(n: Node, parse: BindParser): Node {
    Walk(n, Rewriter(parse))
  }

  /** `walkVueTemplate(root)` without a parent list: a root that needs a
      wrapper has nowhere to be spliced, and the source throws. */
  function TranslateTemplate(root: Node, parse: BindParser): Result<Node, TemplateError> {
    if HasAttrs(root) && NeedsWrapper(root.attrs) then Err(NoParentList)
    else Ok(WalkNode(root, parse))
  }

  // ---------------------------------------------------------------------
  // Mark, then purge

  lemma {:induction false} KeptCount(attrs: seq<Attr>)
    ensures |Kept(attrs)| == |attrs| - CountDeleted(attrs)
  {
    if |attrs| > 0 {
      KeptCount(attrs[1..]);
    }
  }

  lemma {:induction false} KeptAppend(a: seq<Attr>, b: seq<Attr>)
    ensures Kept(a + b) == Kept(a) + Kept(b)
  {
    if |a| == 0 {
      assert a + b == b;
    } else {
      assert (a + b)[0] == a[0];
      assert (a + b)[1..] == a[1..] + b;
      KeptAppend(a[1..], b);
    }
  }

  lemma {:induction false} KeptMembers(attrs: seq<Attr>, x: Attr)
    ensures x in Kept(attrs) <==> x in attrs && !x.deleted
  {
    if |attrs| > 0 {
      KeptMembers(attrs[1..], x);
      assert attrs == [attrs[0]] + attrs[1..];
    }
  }

  lemma {:induction false} KeptClean(attrs: seq<Attr>)
    requires forall k :: 0 <= k < |attrs| ==> !attrs[k].deleted
    ensures Kept(attrs) == attrs
  {
    if |attrs| > 0 {
      KeptClean(attrs[1..]);
      assert attrs == [attrs[0]] + attrs[1..];
    }
  }

  /** After `modifyVueAttrs` no attribute marked deleted remains; the
      survivors are exactly the rewritten attributes not marked, in their
      order (the purge splits over any cut of the list), and their number
      is the length minus the marked ones. */
  lemma ModifyVueAttrsPurges(attrs: seq<Attr>, parse: BindParser)
    ensures var marked := MarkFrom(attrs, 0, parse);
      && (forall k :: 0 <= k < |ModifyVueAttrs(attrs, parse)| ==> !ModifyVueAttrs(attrs, parse)[k].deleted)
      && |ModifyVueAttrs(attrs, parse)| == |attrs| - CountDeleted(marked)
      && (forall x :: x in ModifyVueAttrs(attrs, parse) <==> x in marked && !x.deleted)
      && (forall c :: 0 <= c <= |marked| ==> ModifyVueAttrs(attrs, parse) == Kept(marked[..c]) + Kept(marked[c..]))
  {
    var marked := MarkFrom(attrs, 0, parse);
    KeptCount(marked);
    forall x
      ensures x in Kept(marked) <==> x in marked && !x.deleted
    {
      KeptMembers(marked, x);
    }
    forall c | 0 <= c <= |marked|
      ensures Kept(marked) == Kept(marked[..c]) + Kept(marked[c..])
    {
      assert marked == marked[..c] + marked[c..];
      KeptAppend(marked[..c], marked[c..]);
    }
  }

  // ---------------------------------------------------------------------
  // The rename table

  /** Directives renamed with the value unchanged. */
  const ExactRenames: map<string, string> :=
    map["v-text" := "s-text", "v-html" := "s-html", "v-show" := "s-if", "v-if" := "s-if",
        "v-else" := "s-else", "v-else-if" := "s-else-if", "v-on" := "s-on"]

  lemma ExactRenamesKeepValue(attrs: seq<Attr>, i: nat, parse: BindParser)
    requires i < |attrs| && attrs[i].name in ExactRenames
    ensures ModifyAttrAt(attrs, i, parse) == attrs[i := attrs[i].(name := ExactRenames[attrs[i].name])]
  {
    var n := attrs[i].name;
    assert |n| >= 2 && n[..2] == "v-";
  }

  /** `v-pre`, `v-cloak`, `v-once`, and any name not starting with `v-`,
      `@` or `:`, are left as they are. */
  lemma InertAttributesUntouched(attrs: seq<Attr>, i: nat, parse: BindParser)
    requires i < |attrs|
    requires var n := attrs[i].name;
      || n in {"v-pre", "v-cloak", "v-once"}
      || (!(|n| >= 2 && n[..2] == "v-") && !(|n| >= 1 && (n[0] == '@' || n[0] == ':')))
    ensures ModifyAttrAt(attrs, i, parse) == attrs
  {
    var n := attrs[i].name;
    assert RuleOf(n) == Unchanged by {
      if n in {"v-pre", "v-cloak", "v-once"} {
        assert |n| >= 2 && n[..2] == "v-";
      }
    }
  }

  /** `v-model="e"` becomes `value="{= e =}"`. */
  lemma ModelBecomesTwoWayValue(attrs: seq<Attr>, i: nat, parse: BindParser)
    requires i < |attrs| && attrs[i].name == "v-model"
    ensures ModifyAttrAt(attrs, i, parse) == attrs[i := Attr("value", "{= " + attrs[i].value + " =}", attrs[i].deleted)]
  {
    var n := attrs[i].name;
    assert RuleOf(n) == ModelRule by { assert n[..2] == "v-"; }
  }

  /** `@evt` becomes `on-evt` with the value unchanged. */
  lemma EventBecomesOn(attrs: seq<Attr>, i: nat, evt: string, parse: BindParser)
    requires i < |attrs| && attrs[i].name == "@" + evt
    ensures ModifyAttrAt(attrs, i, parse) == attrs[i := attrs[i].(name := "on-" + evt)]
  {
    var n := attrs[i].name;
    assert n[0] == '@' && n[1..] == evt;
    assert |n| >= 2 ==> n[..2][0] == '@';
  }

  /** `v-for` becomes `s-for` without parentheses; the first `:key`, if
      any, is marked deleted and its value follows ` trackBy `. No other
      attribute changes. */
  lemma ForAbsorbsKey(attrs: seq<Attr>, i: nat, k: nat, parse: BindParser)
    requires i < |attrs| && attrs[i].name == "v-for" && k == FirstNamed(attrs, ":key")
    ensures ModifyAttrAt(attrs, i, parse)[i].name == "s-for"
    ensures ModifyAttrAt(attrs, i, parse)[i].deleted == attrs[i].deleted
    ensures k < |attrs| ==>
      ModifyAttrAt(attrs, i, parse)[i].value == RemoveParens(attrs[i].value) + " trackBy " + attrs[k].value
    ensures k < |attrs| ==> ModifyAttrAt(attrs, i, parse)[k] == attrs[k].(deleted := true)
    ensures k == |attrs| ==> ModifyAttrAt(attrs, i, parse)[i].value == RemoveParens(attrs[i].value)
    ensures forall j :: 0 <= j < |attrs| && j != i && j != k ==> ModifyAttrAt(attrs, i, parse)[j] == attrs[j]
  {
    ForCase(attrs, i, parse);
    if k < |attrs| {
      ModifyForWithKey(attrs, i, k);
    } else {
      ModifyForWithoutKey(attrs, i);
    }
  }

  lemma ModifyForWithKey(attrs: seq<Attr>, i: nat, k: nat)
    requires i < |attrs| && attrs[i].name == "v-for" && k == FirstNamed(attrs, ":key") && k < |attrs|
    ensures ModifyFor(attrs, i)[i]
         == attrs[i].(name := "s-for", value := RemoveParens(attrs[i].value) + " trackBy " + attrs[k].value)
    ensures ModifyFor(attrs, i)[k] == attrs[k].(deleted := true)
    ensures forall j :: 0 <= j < |attrs| && j != i && j != k ==> ModifyFor(attrs, i)[j] == attrs[j]
  {
    var a := attrs[i];
    var renamed := attrs[i := a.(name := "s-for", value := RemoveParens(a.value))];
    KeyIsNotFor(attrs, i, k);
    ModifyForWithKeyIs(attrs, i, k);
    UpdateThenUpdate(attrs, i, renamed[i], k, attrs[k].(deleted := true),
                     a.(name := "s-for", value := RemoveParens(a.value) + " trackBy " + attrs[k].value));
  }

  lemma ModifyForWithKeyIs(attrs: seq<Attr>, i: nat, k: nat)
    requires i < |attrs| && attrs[i].name == "v-for" && k == FirstNamed(attrs, ":key") && k < |attrs|
    ensures var a := attrs[i];
      ModifyFor(attrs, i)
      == attrs[i := a.(name := "s-for", value := RemoveParens(a.value))][k := attrs[k].(deleted := true)]
              [i := a.(name := "s-for", value := RemoveParens(a.value) + " trackBy " + attrs[k].value)]
  {
    var a := attrs[i];
    var renamed := attrs[i := a.(name := "s-for", value := RemoveParens(a.value))];
    assert FirstNamed(renamed, ":key") == k by {
      FirstNamedAfterUpdate(attrs, i, renamed[i], ":key");
    }
    KeyIsNotFor(attrs, i, k);
    assert renamed[k] == attrs[k];
  }

  /** Two updates at different places, with a third overwriting the first. */
  lemma UpdateThenUpdate<T>(s: seq<T>, i: nat, x: T, k: nat, y: T, z: T)
    requires i < |s| && k < |s| && i != k
    ensures s[i := x][k := y][i := z][i] == z
    ensures s[i := x][k := y][i := z][k] == y
    ensures forall j :: 0 <= j < |s| && j != i && j != k ==> s[i := x][k := y][i := z][j] == s[j]
  {
  }

  lemma ModifyForWithoutKey(attrs: seq<Attr>, i: nat)
    requires i < |attrs| && attrs[i].name == "v-for" && FirstNamed(attrs, ":key") == |attrs|
    ensures ModifyFor(attrs, i) == attrs[i := attrs[i].(name := "s-for", value := RemoveParens(attrs[i].value))]
  {
    var a := attrs[i];
    var renamed := attrs[i := a.(name := "s-for", value := RemoveParens(a.value))];
    FirstNamedAfterUpdate(attrs, i, renamed[i], ":key");
  }

  /** The names the rename switch lists. */
  predicate SwitchName(n: string) {
    n in {"v-text", "v-html", "v-show", "v-if", "v-else", "v-else-if", "v-for", "v-on",
          "v-model", "v-pre", "v-cloak", "v-once"}
  }

  /** A `v-` name outside the switch goes to `processAttrBind`. */
  lemma DirectiveDefault(attrs: seq<Attr>, i: nat, parse: BindParser)
    requires i < |attrs|
    requires var n := attrs[i].name; |n| >= 2 && n[..2] == "v-" && !SwitchName(n)
    ensures ModifyAttrAt(attrs, i, parse) == ProcessAttrBind(attrs, i, parse)
  {
  }

  /** No name the switch lists holds a colon. */
  lemma ColonNotSwitch(n: string)
    requires ':' in n
    ensures !SwitchName(n)
  {
  }

  lemma ForCase(attrs: seq<Attr>, i: nat, parse: BindParser)
    requires i < |attrs| && attrs[i].name == "v-for"
    ensures ModifyAttrAt(attrs, i, parse) == ModifyFor(attrs, i)
  {
    var n := attrs[i].name;
    assert RuleOf(n) == ForRule by { assert n[..2] == "v-"; }
  }

  lemma BindTargetOfColon(x: string)
    ensures BindTarget(":" + x) == x
  {
    var n := ":" + x;
    assert |n| >= 7 ==> n[..7][0] == ':';
    assert n[1..] == x;
  }

  lemma BindTargetOfVBind(x: string)
    ensures BindTarget("v-bind:" + x) == x
  {
    var n := "v-bind:" + x;
    assert n[..7] == "v-bind:";
    assert n[7..] == x;
  }

  lemma SplitDotOfPlain(x: string)
    requires '.' !in x
    ensures SplitDot(x) == (x, None)
  {
    FindIs(x, '.', |x|);
  }

  lemma SplitDotOfFiltered(x: string, f: string)
    requires '.' !in x && '.' !in f
    ensures SplitDot(x + "." + f) == (x, Some(f))
  {
    var s := x + "." + f;
    assert s[|x|] == '.';
    assert forall k :: 0 <= k < |x| ==> s[k] == x[k];
    FindIs(s, '.', |x|);
    var rest := s[|x| + 1..];
    assert rest == f;
    FindIs(f, '.', |f|);
    assert rest[..Find(rest, '.')] == f;
    assert s[..|x|] == x;
  }

  lemma {:induction false} FindIs(s: string, c: char, j: nat)
    requires j <= |s| && (j < |s| ==> s[j] == c)
    requires forall k :: 0 <= k < j ==> s[k] != c
    ensures Find(s, c) == j
  {
    if |s| > 0 && s[0] != c {
      FindIs(s[1..], c, j - 1);
    }
  }

  /** Binding names spelled `:x` or `v-bind:x`; the `v-bind:` spelling is
      not one of the names the rename switch lists. */
  predicate BindsTo(name: string, x: string) {
    name == ":" + x || name == "v-bind:" + x
  }

  lemma BindNameTarget(name: string, x: string)
    requires BindsTo(name, x)
    ensures BindTarget(name) == x
  {
    if name == ":" + x { BindTargetOfColon(x); } else { BindTargetOfVBind(x); }
  }

  lemma BindReachesProcess(attrs: seq<Attr>, i: nat, x: string, parse: BindParser)
    requires i < |attrs| && BindsTo(attrs[i].name, x)
    ensures ModifyAttrAt(attrs, i, parse) == ProcessAttrBind(attrs, i, parse)
  {
    var n := attrs[i].name;
    if n == ":" + x {
      assert n[0] == ':';
      assert |n| >= 2 ==> n[..2][0] == ':';
    } else {
      assert n[..2] == "v-" && n[6] == ':';
      ColonNotSwitch(n);
      DirectiveDefault(attrs, i, parse);
    }
  }

  /** `:x="e"` / `v-bind:x="e"` becomes `x="{{ e }}"`. */
  lemma BindBecomesInterpolation(attrs: seq<Attr>, i: nat, x: string, parse: BindParser)
    requires i < |attrs| && BindsTo(attrs[i].name, x)
    requires '.' !in x && x != "kay" && x != "class" && x != "style"
    ensures ModifyAttrAt(attrs, i, parse) == attrs[i := Attr(x, "{{ " + attrs[i].value + " }}", attrs[i].deleted)]
  {
    BindReachesProcess(attrs, i, x, parse);
    BindNameTarget(attrs[i].name, x);
    SplitDotOfPlain(x);
    assert "{{ " + attrs[i].value + "" + " }}" == "{{ " + attrs[i].value + " }}";
  }

  /** `:x.f="e"` becomes `x="{{ e| f }}"`: the text after the dot is taken
      as a filter. */
  lemma BindWithFilter(attrs: seq<Attr>, i: nat, x: string, f: string, parse: BindParser)
    requires i < |attrs| && BindsTo(attrs[i].name, x + "." + f)
    requires '.' !in x && '.' !in f && f != ""
    requires x != "kay" && x != "class" && x != "style"
    ensures ModifyAttrAt(attrs, i, parse) == attrs[i := Attr(x, "{{ " + attrs[i].value + "| " + f + " }}", attrs[i].deleted)]
  {
    var v := attrs[i].value;
    assert ProcessAttrBind(attrs, i, parse) == attrs[i := Attr(x, "{{ " + v + ("| " + f) + " }}", attrs[i].deleted)] by {
      BindNameTarget(attrs[i].name, x + "." + f);
      SplitDotOfFiltered(x, f);
      ProcessPlainWith(attrs, i, x, Some(f), parse);
    }
    assert "{{ " + v + ("| " + f) + " }}" == "{{ " + v + "| " + f + " }}";
    BindReachesProcess(attrs, i, x + "." + f, parse);
  }

  /** The plain branch of `processAttrBind`, for a known split of the
      bound name. */
  lemma ProcessPlainWith(attrs: seq<Attr>, i: nat, t: string, filter: Option<string>, parse: BindParser)
    requires i < |attrs| && SplitDot(BindTarget(attrs[i].name)) == (t, filter)
    requires t != "kay" && t != "class" && t != "style"
    ensures ProcessAttrBind(attrs, i, parse) == attrs[i := Attr(t, "{{ " + attrs[i].value + FilterSuffix(filter) + " }}", attrs[i].deleted)]
  {
  }

  /** A binding to `kay` is left as it is. */
  lemma KayBindingUntouched(attrs: seq<Attr>, i: nat, parse: BindParser)
    requires i < |attrs| && BindsTo(attrs[i].name, "kay")
    ensures ModifyAttrAt(attrs, i, parse) == attrs
  {
    BindReachesProcess(attrs, i, "kay", parse);
    BindNameTarget(attrs[i].name, "kay");
  }

  /** `processAttrBind` with a target other than `kay`, `class`, `style`. */
  lemma ProcessPlain(attrs: seq<Attr>, i: nat, parse: BindParser)
    requires i < |attrs|
    requires var t := SplitDot(BindTarget(attrs[i].name)).0; t != "kay" && t != "class" && t != "style"
    ensures var (t, filter) := SplitDot(BindTarget(attrs[i].name));
      ProcessAttrBind(attrs, i, parse) == attrs[i := Attr(t, "{{ " + attrs[i].value + FilterSuffix(filter) + " }}", attrs[i].deleted)]
  {
  }

  predicate UnknownDirective(n: string) {
    && |n| >= 2 && n[..2] == "v-" && !SwitchName(n)
    && !(|n| >= 7 && n[..7] == "v-bind:")
    && '.' !in n && n[1..] != "kay" && n[1..] != "class" && n[1..] != "style"
  }

  /** A `v-` name outside the switch that is not `v-bind:`, such as
      `v-on:click`, is handled as a binding of the name without its first
      character. */
  lemma UnknownDirectiveDropsFirst(attrs: seq<Attr>, i: nat, parse: BindParser)
    requires i < |attrs| && UnknownDirective(attrs[i].name)
    ensures ModifyAttrAt(attrs, i, parse) == attrs[i := Attr(attrs[i].name[1..], "{{ " + attrs[i].value + " }}", attrs[i].deleted)]
  {
    var n := attrs[i].name;
    DirectiveDefault(attrs, i, parse);
    assert BindTarget(n) == n[1..];
    assert forall k :: 0 <= k < |n| - 1 ==> n[1..][k] == n[k + 1];
    SplitDotOfPlain(n[1..]);
    ProcessPlain(attrs, i, parse);
    assert "{{ " + attrs[i].value + "" + " }}" == "{{ " + attrs[i].value + " }}";
  }

  lemma UnknownDirectiveExample(attrs: seq<Attr>, parse: BindParser)
    requires attrs == [Attr("v-on:click", "go", false)]
    ensures ModifyAttrAt(attrs, 0, parse) == [Attr("-on:click", "{{ go }}", false)]
  {
    VOnClickIsUnknown(attrs[0].name);
    UnknownDirectiveDropsFirst(attrs, 0, parse);
    GoInterpolated(attrs[0].value);
  }

  lemma VOnClickIsUnknown(n: string)
    requires n == "v-on:click"
    ensures UnknownDirective(n) && n[1..] == "-on:click"
  {
    assert n[..2] == "v-";
    assert n[4] == ':';
    ColonNotSwitch(n);
    assert n[..7][2] == 'o';
    assert n[1..] == "-on:click";
  }

  lemma GoInterpolated(v: string)
    requires v == "go"
    ensures "{{ " + v + " }}" == "{{ go }}"
  {
  }

  /** Merging marks exactly the first attribute called `name` (at `k`)
      and rewrites exactly attribute `i`; all others are kept. */
  lemma MergeIntoSpec(attrs: seq<Attr>, i: nat, name: string, text: string, k: nat)
    requires i < |attrs| && attrs[i].name != name && k == FirstNamed(attrs, name)
    ensures MergeInto(attrs, i, name, text)[i] == Attr(name, text, attrs[i].deleted)
    ensures k < |attrs| ==> k != i && MergeInto(attrs, i, name, text)[k] == attrs[k].(deleted := true)
    ensures forall j :: 0 <= j < |attrs| && j != i && j != k ==> MergeInto(attrs, i, name, text)[j] == attrs[j]
  {
  }

  /** A `class` binding reaches the class merge. */
  lemma ClassReachesMerge(attrs: seq<Attr>, i: nat, parse: BindParser)
    requires i < |attrs| && BindsTo(attrs[i].name, "class")
    ensures ModifyAttrAt(attrs, i, parse)
         == MergeInto(attrs, i, "class", VueClassToSanClass(attrs[i].value, StaticText(attrs, "class"), parse))
  {
    assert ModifyAttrAt(attrs, i, parse) == ProcessAttrBind(attrs, i, parse) by {
      BindReachesProcess(attrs, i, "class", parse);
    }
    assert SplitDot(BindTarget(attrs[i].name)).0 == "class" by {
      BindNameTarget(attrs[i].name, "class");
      SplitDotOfPlain("class");
    }
    ProcessClass(attrs, i, parse);
  }

  lemma ProcessClass(attrs: seq<Attr>, i: nat, parse: BindParser)
    requires i < |attrs| && SplitDot(BindTarget(attrs[i].name)).0 == "class"
    ensures ProcessAttrBind(attrs, i, parse)
         == MergeInto(attrs, i, "class", VueClassToSanClass(attrs[i].value, StaticText(attrs, "class"), parse))
  {
  }

  lemma StyleReachesMerge(attrs: seq<Attr>, i: nat, parse: BindParser)
    requires i < |attrs| && BindsTo(attrs[i].name, "style")
    ensures ModifyAttrAt(attrs, i, parse)
         == MergeInto(attrs, i, "style", VueStyleToSanStyle(attrs[i].value, StaticText(attrs, "style"), parse))
  {
    assert ModifyAttrAt(attrs, i, parse) == ProcessAttrBind(attrs, i, parse) by {
      BindReachesProcess(attrs, i, "style", parse);
    }
    assert SplitDot(BindTarget(attrs[i].name)).0 == "style" by {
      BindNameTarget(attrs[i].name, "style");
      SplitDotOfPlain("style");
    }
    ProcessStyle(attrs, i, parse);
  }

  lemma ProcessStyle(attrs: seq<Attr>, i: nat, parse: BindParser)
    requires i < |attrs| && SplitDot(BindTarget(attrs[i].name)).0 == "style"
    ensures ProcessAttrBind(attrs, i, parse)
         == MergeInto(attrs, i, "style", VueStyleToSanStyle(attrs[i].value, StaticText(attrs, "style"), parse))
  {
    assert "style" != "kay" && "style" != "class" by { assert "style"[0] != "kay"[0] && "style"[0] != "class"[0]; }
  }

  /** `:class="e"` takes the text `st` of the first `class` attribute (at
      `k`), marks that attribute deleted, and becomes `class` with the
      merged text. */
  lemma ClassBindingMerges(attrs: seq<Attr>, i: nat, k: nat, st: string, parse: BindParser)
    requires i < |attrs| && BindsTo(attrs[i].name, "class")
    requires k == FirstNamed(attrs, "class") && st == (if k < |attrs| then attrs[k].value else "")
    ensures ModifyAttrAt(attrs, i, parse)[i] == Attr("class", VueClassToSanClass(attrs[i].value, st, parse), attrs[i].deleted)
    ensures k < |attrs| ==> k != i && ModifyAttrAt(attrs, i, parse)[k] == attrs[k].(deleted := true)
    ensures forall j :: 0 <= j < |attrs| && j != i && j != k ==> ModifyAttrAt(attrs, i, parse)[j] == attrs[j]
  {
    ClassReachesMerge(attrs, i, parse);
    assert attrs[i].name != "class" by { assert attrs[i].name[0] != 'c'; }
    MergeIntoSpec(attrs, i, "class", VueClassToSanClass(attrs[i].value, st, parse), k);
  }

  /** `:style="e"` likewise merges the first `style` attribute. */
  lemma StyleBindingMerges(attrs: seq<Attr>, i: nat, k: nat, st: string, parse: BindParser)
    requires i < |attrs| && BindsTo(attrs[i].name, "style")
    requires k == FirstNamed(attrs, "style") && st == (if k < |attrs| then attrs[k].value else "")
    ensures ModifyAttrAt(attrs, i, parse)[i] == Attr("style", VueStyleToSanStyle(attrs[i].value, st, parse), attrs[i].deleted)
    ensures k < |attrs| ==> k != i && ModifyAttrAt(attrs, i, parse)[k] == attrs[k].(deleted := true)
    ensures forall j :: 0 <= j < |attrs| && j != i && j != k ==> ModifyAttrAt(attrs, i, parse)[j] == attrs[j]
  {
    StyleReachesMerge(attrs, i, parse);
    assert attrs[i].name != "style" by { assert attrs[i].name[0] != 's'; }
    MergeIntoSpec(attrs, i, "style", VueStyleToSanStyle(attrs[i].value, st, parse), k);
  }

  // ---------------------------------------------------------------------
  // Order matters: each attribute sees the list as rewritten so far

  lemma MarkTwo(attrs: seq<Attr>, parse: BindParser)
    requires |attrs| == 2
    ensures MarkFrom(attrs, 0, parse) == ModifyAttrAt(ModifyAttrAt(attrs, 0, parse), 1, parse)
  {
    var a1 := ModifyAttrAt(attrs, 0, parse);
    var a2 := ModifyAttrAt(a1, 1, parse);
    assert MarkFrom(attrs, 0, parse) == MarkFrom(a1, 1, parse);
    assert MarkFrom(a1, 1, parse) == MarkFrom(a2, 2, parse);
    assert MarkFrom(a2, 2, parse) == a2;
  }

  /** A `:key` before `v-for` has already become a plain `key` binding
      when `v-for` looks for it, so it is not absorbed into `trackBy`. */
  lemma KeyBeforeForNotAbsorbed(forValue: string, keyValue: string, parse: BindParser)
    ensures ModifyVueAttrs([Attr(":key", keyValue, false), Attr("v-for", forValue, false)], parse)
         == [Attr("key", "{{ " + keyValue + " }}", false), Attr("s-for", RemoveParens(forValue), false)]
  {
    var attrs := [Attr(":key", keyValue, false), Attr("v-for", forValue, false)];
    assert ":key" == ":" + "key";
    BindBecomesInterpolation(attrs, 0, "key", parse);
    var a1 := ModifyAttrAt(attrs, 0, parse);
    assert a1 == [Attr("key", "{{ " + keyValue + " }}", false), Attr("v-for", forValue, false)];
    FirstNamedIs(a1, ":key", 2);
    ForAbsorbsKey(a1, 1, 2, parse);
    var a2 := ModifyAttrAt(a1, 1, parse);
    MarkTwo(attrs, parse);
    KeptClean(a2);
  }

  /** A `:key` after `v-for` is absorbed: marked deleted, appended after
      ` trackBy `, and purged. */
  lemma KeyAfterForAbsorbed(forValue: string, keyValue: string, parse: BindParser)
    ensures ModifyVueAttrs([Attr("v-for", forValue, false), Attr(":key", keyValue, false)], parse)
         == [Attr("s-for", RemoveParens(forValue) + " trackBy " + keyValue, false)]
  {
    var attrs := [Attr("v-for", forValue, false), Attr(":key", keyValue, false)];
    FirstNamedIs(attrs, ":key", 1);
    ForAbsorbsKey(attrs, 0, 1, parse);
    var a1 := ModifyAttrAt(attrs, 0, parse);
    assert a1 == [Attr("s-for", RemoveParens(forValue) + " trackBy " + keyValue, false), Attr(":key", keyValue, true)];
    assert ":key" == ":" + "key";
    BindBecomesInterpolation(a1, 1, "key", parse);
    var a2 := ModifyAttrAt(a1, 1, parse);
    assert a2[1].deleted && !a2[0].deleted;
    MarkTwo(attrs, parse);
    assert Kept(a2) == [a2[0]] + Kept(a2[1..]);
    assert Kept(a2[1..]) == [] by {
      assert a2[1..][1..] == [];
    }
  }

  // ---------------------------------------------------------------------
  // The `v-for` + `v-if` wrapper

  /** The wrapper holds the first `v-for` and then the first `:key`, if
      any. The element keeps the other attributes in order, except that
      without a `:key` it also loses its last remaining attribute. */
  lemma SplitForIfSpec(attrs: seq<Attr>, f: nat, k: nat)
    requires NeedsWrapper(attrs)
    requires f == FirstNamed(attrs, "v-for") && k == FirstNamed(attrs, ":key")
    ensures SplitForIf(attrs).wrapper == [attrs[f]] + (if k < |attrs| then [attrs[k]] else [])
    ensures k < f ==> SplitForIf(attrs).rest == attrs[..k] + attrs[k + 1..f] + attrs[f + 1..]
    ensures f < k < |attrs| ==> SplitForIf(attrs).rest == attrs[..f] + attrs[f + 1..k] + attrs[k + 1..]
    ensures k == |attrs| ==> SplitForIf(attrs).rest == (attrs[..f] + attrs[f + 1..])[..|attrs| - 2]
  {
    SplitForIfParts(attrs, f, k);
    KeyIsNotFor(attrs, f, k);
    if k < f {
      SpliceKeyBeforeFor(attrs, f, k);
    } else if k < |attrs| {
      SpliceKeyAfterFor(attrs, f, k);
    } else {
      IfIsNotFor(attrs, f);
      SpliceWithoutKey(attrs, f);
    }
  }

  /** `SplitForIf` in terms of the two splices it performs. */
  lemma SplitForIfParts(attrs: seq<Attr>, f: nat, k: nat)
    requires NeedsWrapper(attrs)
    requires f == FirstNamed(attrs, "v-for") && k == FirstNamed(attrs, ":key")
    ensures SplitForIf(attrs).wrapper == [attrs[f]] + (if k < |attrs| then [attrs[k]] else [])
    ensures SplitForIf(attrs).rest
         == SpliceOne(SpliceOne(attrs, f), if k < |attrs| then (if k < f then k else k - 1) else -1)
  {
  }

  lemma KeyIsNotFor(attrs: seq<Attr>, f: nat, k: nat)
    requires f < |attrs| && attrs[f].name == "v-for"
    requires k < |attrs| ==> attrs[k].name == ":key"
    ensures k != f
  {
    assert attrs[f].name[0] == 'v';
    assert k < |attrs| ==> attrs[k].name[0] == ':';
  }

  lemma IfIsNotFor(attrs: seq<Attr>, f: nat)
    requires NeedsWrapper(attrs) && f == FirstNamed(attrs, "v-for")
    ensures |attrs| >= 2
  {
    var g := FirstNamed(attrs, "v-if");
    assert |attrs[g].name| != |attrs[f].name|;
  }

  lemma SpliceKeyBeforeFor(attrs: seq<Attr>, f: nat, k: nat)
    requires k < f < |attrs|
    ensures SpliceOne(SpliceOne(attrs, f), k) == attrs[..k] + attrs[k + 1..f] + attrs[f + 1..]
  {
    var w := SpliceOne(attrs, f);
    assert w == attrs[..f] + attrs[f + 1..];
    assert w[..k] == attrs[..k];
    assert w[k + 1..] == attrs[k + 1..f] + attrs[f + 1..];
  }

  lemma SpliceKeyAfterFor(attrs: seq<Attr>, f: nat, k: nat)
    requires f < k < |attrs|
    ensures SpliceOne(SpliceOne(attrs, f), k - 1) == attrs[..f] + attrs[f + 1..k] + attrs[k + 1..]
  {
    var w := SpliceOne(attrs, f);
    assert w == attrs[..f] + attrs[f + 1..];
    assert w[..k - 1] == attrs[..f] + attrs[f + 1..k];
    assert w[k..] == attrs[k + 1..];
  }

  lemma SpliceWithoutKey(attrs: seq<Attr>, f: nat)
    requires f < |attrs| && |attrs| >= 2
    ensures SpliceOne(SpliceOne(attrs, f), -1) == (attrs[..f] + attrs[f + 1..])[..|attrs| - 2]
  {
    var w := SpliceOne(attrs, f);
    assert w == attrs[..f] + attrs[f + 1..];
    SpliceMinusOneDropsLast(w);
  }

  lemma MarkOne(attrs: seq<Attr>, parse: BindParser)
    requires |attrs| == 1
    ensures MarkFrom(attrs, 0, parse) == ModifyAttrAt(attrs, 0, parse)
  {
    var a1 := ModifyAttrAt(attrs, 0, parse);
    assert MarkFrom(attrs, 0, parse) == MarkFrom(a1, 1, parse);
  }

  lemma WalkWrappedLeaf(tag: string, attrs: seq<Attr>, parse: BindParser)
    requires NeedsWrapper(attrs)
    ensures WalkNode(Element(tag, attrs, []), parse)
         == Template(ModifyVueAttrs(SplitForIf(attrs).wrapper, parse), [Element(tag, ModifyVueAttrs(SplitForIf(attrs).rest, parse), [])])
  {
    var kids: seq<Node> := [];
    WalkWrapped(tag, attrs, kids, parse);
    assert seq(|kids|, j requires 0 <= j < |kids| => Walk(kids[j], Rewriter(parse))) == [];
  }

  /** `v-for` with `v-if` and no `:key`: `splice(-1, 1)` removes the last
      attribute, here the `v-if`, which is lost. */
  lemma IfLostWithoutKey(tag: string, forValue: string, cond: string, parse: BindParser)
    ensures WalkNode(Element(tag, [Attr("v-for", forValue, false), Attr("v-if", cond, false)], []), parse)
         == Template([Attr("s-for", RemoveParens(forValue), false)], [Element(tag, [], [])])
  {
    var attrs := [Attr("v-for", forValue, false), Attr("v-if", cond, false)];
    FirstNamedIs(attrs, "v-for", 0);
    FirstNamedIs(attrs, "v-if", 1);
    FirstNamedIs(attrs, ":key", 2);
    SplitForIfSpec(attrs, 0, 2);
    var s := SplitForIf(attrs);
    assert s.wrapper == [attrs[0]];
    assert s.rest == [];
    ForSingle(forValue, parse);
    assert ModifyVueAttrs([], parse) == [];
    WalkWrappedLeaf(tag, attrs, parse);
  }

  lemma ForSingle(forValue: string, parse: BindParser)
    ensures ModifyVueAttrs([Attr("v-for", forValue, false)], parse) == [Attr("s-for", RemoveParens(forValue), false)]
  {
    var attrs := [Attr("v-for", forValue, false)];
    FirstNamedIs(attrs, ":key", 1);
    ForAbsorbsKey(attrs, 0, 1, parse);
    MarkOne(attrs, parse);
    var a1 := ModifyAttrAt(attrs, 0, parse);
    assert a1 == [Attr("s-for", RemoveParens(forValue), false)];
    KeptClean(a1);
  }

  lemma IfSingle(cond: string, parse: BindParser)
    ensures ModifyVueAttrs([Attr("v-if", cond, false)], parse) == [Attr("s-if", cond, false)]
  {
    var attrs := [Attr("v-if", cond, false)];
    ExactRenamesKeepValue(attrs, 0, parse);
    MarkOne(attrs, parse);
    var a1 := ModifyAttrAt(attrs, 0, parse);
    assert a1 == [Attr("s-if", cond, false)];
    KeptClean(a1);
  }

  /** `<div v-for="(some, i) in topList" :key="some.key" v-if="some.data == 1">`
      becomes a `template` with `s-for="some, i in topList trackBy some.key"`
      around the `div`, which keeps `s-if="some.data == 1"`. */
  lemma WrapperExample(attrs: seq<Attr>, parse: BindParser)
    requires attrs == [Attr("v-for", "(some, i) in topList", false), Attr(":key", "some.key", false),
                       Attr("v-if", "some.data == 1", false)]
    ensures WalkNode(Element("div", attrs, []), parse)
         == Template([Attr("s-for", "some, i in topList trackBy some.key", false)],
                     [Element("div", [Attr("s-if", "some.data == 1", false)], [])])
  {
    WrapperExampleSplit(attrs, parse);
    WalkWrappedLeaf("div", attrs, parse);
  }

  lemma WrapperExampleSplit(attrs: seq<Attr>, parse: BindParser)
    requires attrs == [Attr("v-for", "(some, i) in topList", false), Attr(":key", "some.key", false),
                       Attr("v-if", "some.data == 1", false)]
    ensures NeedsWrapper(attrs)
    ensures ModifyVueAttrs(SplitForIf(attrs).wrapper, parse) == [Attr("s-for", "some, i in topList trackBy some.key", false)]
    ensures ModifyVueAttrs(SplitForIf(attrs).rest, parse) == [Attr("s-if", "some.data == 1", false)]
  {
    var forValue := attrs[0].value;
    FirstNamedIs(attrs, "v-for", 0);
    FirstNamedIs(attrs, ":key", 1);
    FirstNamedIs(attrs, "v-if", 2);
    SplitForIfSpec(attrs, 0, 1);
    var s := SplitForIf(attrs);
    assert s.wrapper == [Attr("v-for", forValue, false), Attr(":key", "some.key", false)];
    assert s.rest == [Attr("v-if", "some.data == 1", false)];
    KeyAfterForAbsorbed(forValue, "some.key", parse);
    TopListParens(forValue);
    TrackByText();
    IfSingle("some.data == 1", parse);
  }

  lemma TrackByText()
    ensures "some, i in topList" + " trackBy " + "some.key" == "some, i in topList trackBy some.key"
  {
  }

  /** Parentheses around the loop variables are dropped. */
  lemma ParenthesisedVariables(inner: string, tail: string)
    requires forall k :: 0 <= k < |inner| ==> !IsParen(inner[k])
    requires forall k :: 0 <= k < |tail| ==> !IsParen(tail[k])
    ensures RemoveParens("(" + inner + ")" + tail) == inner + tail
  {
    RemoveParensAppend("(" + inner + ")", tail);
    WrappedInParens(inner);
    RemoveParensKeepsOthers(tail);
  }

  lemma WrappedInParens(inner: string)
    requires forall k :: 0 <= k < |inner| ==> !IsParen(inner[k])
    ensures RemoveParens("(" + inner + ")") == inner
  {
    RemoveParensAppend("(" + inner, ")");
    OpenParenDropped(inner);
    assert RemoveParens(")") == "" by { assert ")"[1..] == ""; }
  }

  lemma OpenParenDropped(inner: string)
    requires forall k :: 0 <= k < |inner| ==> !IsParen(inner[k])
    ensures RemoveParens("(" + inner) == inner
  {
    var s := "(" + inner;
    assert s[1..] == inner;
    RemoveParensKeepsOthers(inner);
  }

  lemma TopListParens(forValue: string)
    requires forValue == "(some, i) in topList"
    ensures RemoveParens(forValue) == "some, i in topList"
  {
    TopListPieces(forValue);
    ParenFree("some, i", ['s', 'o', 'm', 'e', ',', ' ', 'i']);
    ParenFree(" in topList", [' ', 'i', 'n', ' ', 't', 'o', 'p', 'L', 'i', 's', 't']);
    ParenthesisedVariables("some, i", " in topList");
  }

  lemma TopListPieces(forValue: string)
    requires forValue == "(some, i) in topList"
    ensures forValue == "(" + "some, i" + ")" + " in topList"
    ensures "some, i" + " in topList" == "some, i in topList"
  {
  }

  lemma ParenFree(s: string, chars: seq<char>)
    requires s == chars && '(' !in chars && ')' !in chars
    ensures forall k :: 0 <= k < |s| ==> !IsParen(s[k])
  {
    forall k | 0 <= k < |s|
      ensures !IsParen(s[k])
    {
      assert s[k] in chars;
    }
  }

  // ---------------------------------------------------------------------
  // Whole-tree properties of the walk

  predicate NoDeleted(attrs: seq<Attr>) {
    forall k :: 0 <= k < |attrs| ==> !attrs[k].deleted
  }

  /** No attribute anywhere in the tree, `template` content included, is
      marked deleted (as parse5 produces it). */
  predicate Clean(n: Node)
    decreases n
  {
    match n
    case Element(_, attrs, kids) => NoDeleted(attrs) && forall j :: 0 <= j < |kids| ==> Clean(kids[j])
    case Template(attrs, content) => NoDeleted(attrs) && forall j :: 0 <= j < |content| ==> Clean(content[j])
    case Fragment(kids) => forall j :: 0 <= j < |kids| ==> Clean(kids[j])
    case Text(_) => true
  }

  /** No walked element or `template` carries both `v-for` and `v-if`. */
  predicate Unwrapped(n: Node)
    decreases n
  {
    match n
    case Element(_, attrs, kids) => !NeedsWrapper(attrs) && forall j :: 0 <= j < |kids| ==> Unwrapped(kids[j])
    case Template(attrs, _) => !NeedsWrapper(attrs)
    case Fragment(kids) => forall j :: 0 <= j < |kids| ==> Unwrapped(kids[j])
    case Text(_) => true
  }

  /** The same nodes in the same places: same kinds, tags, child counts,
      text and `template` content; attributes may differ. */
  predicate SameShape(a: Node, b: Node)
    decreases a
  {
    match a
    case Element(tag, _, kids) =>
      b.Element? && b.tag == tag && |b.children| == |kids|
      && forall j :: 0 <= j < |kids| ==> SameShape(kids[j], b.children[j])
    case Template(_, content) => b.Template? && b.content == content
    case Fragment(kids) =>
      b.Fragment? && |b.children| == |kids|
      && forall j :: 0 <= j < |kids| ==> SameShape(kids[j], b.children[j])
    case Text(_) => b == a
  }

  /** The walk leaves no attribute marked deleted anywhere, for any
      rewrite that leaves none in the lists it returns. */
  lemma {:induction false} WalkLeavesNoMarks(n: Node, rw: AttrRewrite)
    requires Clean(n)
    requires forall a :: NoDeleted(rw(a))
    ensures Clean(Walk(n, rw))
    decreases n
  {
    match n
    case Element(tag, attrs, kids) =>
      forall j | 0 <= j < |kids|
        ensures Clean(Walk(kids[j], rw))
      {
        WalkLeavesNoMarks(kids[j], rw);
      }
      WalkedElementClean(tag, attrs, kids, rw);
    case Template(attrs, content) =>
      WalkedTemplateClean(attrs, content, rw);
    case Fragment(kids) =>
      forall j | 0 <= j < |kids|
        ensures Clean(Walk(kids[j], rw))
      {
        WalkLeavesNoMarks(kids[j], rw);
      }
      var kids' := seq(|kids|, j requires 0 <= j < |kids| => Walk(kids[j], rw));
      assert Walk(n, rw) == Fragment(kids');
    case Text(_) =>
  }

  lemma WalkedElementClean(tag: string, attrs: seq<Attr>, kids: seq<Node>, rw: AttrRewrite)
    requires forall j :: 0 <= j < |kids| ==> Clean(Walk(kids[j], rw))
    requires forall a :: NoDeleted(rw(a))
    ensures Clean(Walk(Element(tag, attrs, kids), rw))
  {
    var kids' := seq(|kids|, j requires 0 <= j < |kids| => Walk(kids[j], rw));
    assert forall j :: 0 <= j < |kids'| ==> Clean(kids'[j]);
    if NeedsWrapper(attrs) {
      var s := SplitForIf(attrs);
      var inner := Element(tag, rw(s.rest), kids');
      assert Clean(inner);
      assert Walk(Element(tag, attrs, kids), rw) == Template(rw(s.wrapper), [inner]);
    } else {
      assert Walk(Element(tag, attrs, kids), rw) == Element(tag, rw(attrs), kids');
    }
  }

  lemma WalkedTemplateClean(attrs: seq<Attr>, content: seq<Node>, rw: AttrRewrite)
    requires forall j :: 0 <= j < |content| ==> Clean(content[j])
    requires forall a :: NoDeleted(rw(a))
    ensures Clean(Walk(Template(attrs, content), rw))
  {
    if NeedsWrapper(attrs) {
      var s := SplitForIf(attrs);
      var inner := Template(rw(s.rest), content);
      assert Clean(inner);
      assert Walk(Template(attrs, content), rw) == Template(rw(s.wrapper), [inner]);
    }
  }

  /** Without a `v-for` + `v-if` pair the walk keeps the tree's shape and
      only rewrites attributes. */
  lemma {:induction false} WalkKeepsShape(n: Node, rw: AttrRewrite)
    requires Unwrapped(n)
    ensures SameShape(n, Walk(n, rw))
    decreases n
  {
    match n
    case Element(tag, attrs, kids) =>
      forall j | 0 <= j < |kids|
        ensures SameShape(kids[j], Walk(kids[j], rw))
      {
        WalkKeepsShape(kids[j], rw);
      }
    case Template(_, _) =>
    case Fragment(kids) =>
      forall j | 0 <= j < |kids|
        ensures SameShape(kids[j], Walk(kids[j], rw))
      {
        WalkKeepsShape(kids[j], rw);
      }
    case Text(_) =>
  }

  /** An element with `v-for` and `v-if` is replaced by a `template` that
      carries the loop: `s-for`, with the first `:key` as `trackBy`. */
  lemma WrapperCarriesLoop(tag: string, attrs: seq<Attr>, kids: seq<Node>, f: nat, k: nat, parse: BindParser)
    requires NeedsWrapper(attrs) && NoDeleted(attrs)
    requires f == FirstNamed(attrs, "v-for") && k == FirstNamed(attrs, ":key")
    ensures WalkNode(Element(tag, attrs, kids), parse).Template?
    ensures k < |attrs| ==>
      WalkNode(Element(tag, attrs, kids), parse).attrs == [Attr("s-for", RemoveParens(attrs[f].value) + " trackBy " + attrs[k].value, false)]
    ensures k == |attrs| ==>
      WalkNode(Element(tag, attrs, kids), parse).attrs == [Attr("s-for", RemoveParens(attrs[f].value), false)]
  {
    WalkWrapped(tag, attrs, kids, parse);
    if k < |attrs| {
      WrapperWithKey(attrs, f, k, parse);
    } else {
      WrapperWithoutKey(attrs, f, k, parse);
    }
  }

  /** The wrapping `template` holds the element, with its remaining
      attributes rewritten and its children walked, as its only content. */
  lemma WrapperHoldsElement(tag: string, attrs: seq<Attr>, kids: seq<Node>, parse: BindParser)
    requires NeedsWrapper(attrs)
    ensures |WalkNode(Element(tag, attrs, kids), parse).content| == 1
    ensures WalkNode(Element(tag, attrs, kids), parse).content[0].Element?
    ensures WalkNode(Element(tag, attrs, kids), parse).content[0].tag == tag
    ensures WalkNode(Element(tag, attrs, kids), parse).content[0].attrs == ModifyVueAttrs(SplitForIf(attrs).rest, parse)
    ensures |WalkNode(Element(tag, attrs, kids), parse).content[0].children| == |kids|
    ensures forall j :: 0 <= j < |kids| ==> WalkNode(Element(tag, attrs, kids), parse).content[0].children[j] == WalkNode(kids[j], parse)
  {
    WalkWrapped(tag, attrs, kids, parse);
  }

  lemma WalkWrapped(tag: string, attrs: seq<Attr>, kids: seq<Node>, parse: BindParser)
    requires NeedsWrapper(attrs)
    ensures WalkNode(Element(tag, attrs, kids), parse)
         == Template(ModifyVueAttrs(SplitForIf(attrs).wrapper, parse),
                     [Element(tag, ModifyVueAttrs(SplitForIf(attrs).rest, parse),
                              seq(|kids|, j requires 0 <= j < |kids| => Walk(kids[j], Rewriter(parse))))])
  {
    WalkWrappedWith(tag, attrs, kids, Rewriter(parse));
    assert Rewriter(parse)(SplitForIf(attrs).wrapper) == ModifyVueAttrs(SplitForIf(attrs).wrapper, parse);
    assert Rewriter(parse)(SplitForIf(attrs).rest) == ModifyVueAttrs(SplitForIf(attrs).rest, parse);
  }

  lemma WalkWrappedWith(tag: string, attrs: seq<Attr>, kids: seq<Node>, rw: AttrRewrite)
    requires NeedsWrapper(attrs)
    ensures Walk(Element(tag, attrs, kids), rw)
         == Template(rw(SplitForIf(attrs).wrapper),
                     [Element(tag, rw(SplitForIf(attrs).rest),
                              seq(|kids|, j requires 0 <= j < |kids| => Walk(kids[j], rw)))])
  {
  }

  lemma WrapperWithKey(attrs: seq<Attr>, f: nat, k: nat, parse: BindParser)
    requires NeedsWrapper(attrs) && NoDeleted(attrs)
    requires f == FirstNamed(attrs, "v-for") && k == FirstNamed(attrs, ":key") && k < |attrs|
    ensures ModifyVueAttrs(SplitForIf(attrs).wrapper, parse)
         == [Attr("s-for", RemoveParens(attrs[f].value) + " trackBy " + attrs[k].value, false)]
  {
    WrapperListWithKey(attrs, f, k);
    KeyAfterForAbsorbed(attrs[f].value, attrs[k].value, parse);
  }

  lemma WrapperWithoutKey(attrs: seq<Attr>, f: nat, k: nat, parse: BindParser)
    requires NeedsWrapper(attrs) && NoDeleted(attrs)
    requires f == FirstNamed(attrs, "v-for") && k == FirstNamed(attrs, ":key") && k == |attrs|
    ensures ModifyVueAttrs(SplitForIf(attrs).wrapper, parse) == [Attr("s-for", RemoveParens(attrs[f].value), false)]
  {
    WrapperListWithoutKey(attrs, f, k);
    ForSingle(attrs[f].value, parse);
  }

  lemma WrapperListWithKey(attrs: seq<Attr>, f: nat, k: nat)
    requires NeedsWrapper(attrs) && NoDeleted(attrs)
    requires f == FirstNamed(attrs, "v-for") && k == FirstNamed(attrs, ":key") && k < |attrs|
    ensures SplitForIf(attrs).wrapper == [Attr("v-for", attrs[f].value, false), Attr(":key", attrs[k].value, false)]
  {
    SplitForIfParts(attrs, f, k);
    UnmarkedPair(attrs[f], attrs[k]);
  }

  lemma UnmarkedPair(a: Attr, b: Attr)
    requires a.name == "v-for" && b.name == ":key" && !a.deleted && !b.deleted
    ensures [a] + [b] == [Attr("v-for", a.value, false), Attr(":key", b.value, false)]
  {
  }

  lemma WrapperListWithoutKey(attrs: seq<Attr>, f: nat, k: nat)
    requires NeedsWrapper(attrs) && NoDeleted(attrs)
    requires f == FirstNamed(attrs, "v-for") && k == FirstNamed(attrs, ":key") && k == |attrs|
    ensures SplitForIf(attrs).wrapper == [Attr("v-for", attrs[f].value, false)]
  {
    SplitForIfParts(attrs, f, k);
    assert attrs[f] == Attr("v-for", attrs[f].value, false);
  }

  /** The entry point fails exactly on a root that itself needs wrapping;
      otherwise it returns the walked tree, with no marked attributes left
      and, without any `v-for` + `v-if` pair, the shape unchanged. */
  lemma TranslateTemplateSpec(root: Node, parse: BindParser)
    ensures TranslateTemplate(root, parse).Err? <==> HasAttrs(root) && NeedsWrapper(root.attrs)
    ensures root.Fragment? ==> TranslateTemplate(root, parse).Ok?
    ensures Clean(root) && TranslateTemplate(root, parse).Ok? ==> Clean(TranslateTemplate(root, parse).value)
    ensures Unwrapped(root) ==> TranslateTemplate(root, parse).Ok? && SameShape(root, TranslateTemplate(root, parse).value)
  {
    var rw: AttrRewrite := attrs => ModifyVueAttrs(attrs, parse);
    if Clean(root) {
      WalkLeavesNoMarks(root, rw);
    }
    if Unwrapped(root) {
      WalkKeepsShape(root, rw);
    }
  }

  /** Attributes the translator does not know are passed through as they
      are. */
  lemma {:induction false} MarkFromUnchanged(attrs: seq<Attr>, i: nat, parse: BindParser)
    requires i <= |attrs|
    requires forall k :: i <= k < |attrs| ==> RuleOf(attrs[k].name) == Unchanged
    ensures MarkFrom(attrs, i, parse) == attrs
    decreases |attrs| - i
  {
    if i < |attrs| {
      MarkFromUnchanged(attrs, i + 1, parse);
    }
  }

  lemma PlainAttributesPassThrough(attrs: seq<Attr>, parse: BindParser)
    requires NoDeleted(attrs)
    requires forall k :: 0 <= k < |attrs| ==> RuleOf(attrs[k].name) == Unchanged
    ensures ModifyVueAttrs(attrs, parse) == attrs
  {
    MarkFromUnchanged(attrs, 0, parse);
    KeptClean(attrs);
  }
}
