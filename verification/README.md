# vue_to_san core, modelled in Dafny

vue_to_san converts Vue single-file components into San components. This project models the three pieces of tree-to-tree logic at its core and proves what each promises.

## The three pieces

**The script accessor rewriter** (`modes/javascript.ts`). Inside a method body it rewrites every `this`-rooted access chain:
- a plain `=` assignment becomes `this.data.set(path, value)`;
- a call to an array-mutation method becomes `this.data.<m>(path, args)`;
- any other call on a chain is left alone;
- every other chain becomes `this.data.get(path)`.

Each path is one string literal, or a `+` chain of literals and dynamic keys. The default-exported options literal is rewritten too: `data` becomes `initData`, and `methods` is flattened in place.

**The template attribute translator** (`modes/template.ts`, `libs/utils.ts`). It covers:
- the `v-*` / `@*` / `:*` rename table;
- `v-for` with `trackBy` absorption of `:key`;
- `:class` / `:style` merging;
- the two-phase "mark deleted, then purge" of attributes;
- the desugaring of `v-for` + `v-if` into a wrapping `template`;
- `camalCaseToDashed`.

**The older translator** (`index.ts`). It has its own rename table and walk, no deletions, and its options rewrite keeps the methods unchanged.

## Modules

| file | module | what it holds |
|---|---|---|
| `results.dfy` | `Results` | `Result` and `Option` |
| `script_ast.dfy` | `ScriptAst` | the script tree |
| `access_path.dfy` | `AccessPath` | `propertyAccessToDataOPath` |
| `accessor_finder.dfy` | `AccessorFinder` | `markThisDataGetOrSet` |
| `accessor_replacer.dfy` | `AccessorReplacer` | `replaceAccessors` |
| `method_rewriter.dfy` | `MethodRewriter` | `modifyVueMethods` and the three node builders |
| `component_options.dfy` | `ComponentOptions` | the options-literal rewrite of both revisions |
| `js_string.dfy` | `JsString` | `trim`, `replace`, `split('.')`, `splice` with their ECMAScript semantics |
| `case_util.dfy` | `CaseUtil` | `camalCaseToDashed` |
| `bind_values.dfy` | `BindValues` | `vueClassToSanClass`, `vueStyleToSanStyle` |
| `markup.dfy` | `Markup` | the parse5 tree |
| `template_translator.dfy` | `TemplateTranslator` | the newer template translator |
| `legacy_template.dfy` | `LegacyTemplate` | the older template translator |

## How the model stands in for the program

- **Object identity.** Node ids stand in for object identity. Nodes parsed from source carry `Src(n)`. Nodes the rewriter creates carry `Synth`.
- **Parent links.** The parent links that `markThisDataGetOrSet` writes are modelled as the ancestor stack of each `this` found by the pre-pass. The upward climb runs over that stack.
- **TypeErrors.** Where the source throws a TypeError, the model returns `Err`:
  - `dataPathSeg[0]` is undefined when a path has no segment;
  - a spread member has no `name`;
  - a root element needing a wrapper has no parent list.
- **Parsing and printing.** A `:class` / `:style` value is parsed and printed outside the model. A `BindParser` parameter gives the parsed literal, with every printed sub-expression as an opaque string.

## Model

| member | source | states |
|---|---|---|
| CaseUtil.CamelCaseToDashed | libs/utils.ts:1-5 | the result holds no capital letter A-Z |
| CaseUtil.DashedAppend | libs/utils.ts:2-4 | the conversion is a per-character replace, so it distributes over concatenation |
| CaseUtil.DashedLength | libs/utils.ts:2-4 | the result is longer than the input by exactly the number of capitals |
| CaseUtil.DashedIdentity | libs/utils.ts:2-4 | a string without capitals is returned unchanged |
| CaseUtil.DashedIdempotent | libs/utils.ts:1-5 | converting twice equals converting once |
| CaseUtil.DashedRoundTrip | libs/utils.ts:1-5 | on names without dashes, converting `-x` back to `X` restores the name, so nothing is lost |
| CaseUtil.FontSizeExample | libs/utils.ts:1-5 | `fontSize` becomes `font-size` |
| JsString.TrimSpec | modes/template.ts:38 | `trim` returns an infix of its input with only white space around it, and the result neither starts nor ends with white space |
| JsString.Trim | modes/template.ts:38 | `trim` never lengthens its input, and a non-empty result starts and ends with a character that is not white space |
| JsString.TrimIdempotent | modes/template.ts:75 | trimming twice equals trimming once |
| JsString.RemoveParens | modes/template.ts:126 | the result has no `(` or `)` and is no longer than the input |
| JsString.RemoveParensAppend | modes/template.ts:126 | removal works piecewise over concatenation |
| JsString.RemoveParensKeepsOthers | modes/template.ts:126 | a text without parentheses is kept as it is |
| JsString.SplitDot | modes/template.ts:84 | neither the name nor the filter that destructuring keeps holds a dot |
| JsString.SplitDotSpec | modes/template.ts:84 | the name is the text before the first dot. There is a filter exactly when the text holds a dot, and it is the text from the first dot to the next dot or the end |
| JsString.SplitDotJoin | modes/template.ts:84 | with at most one dot, joining the two parts with `.` gives the input back |
| JsString.SplitDotDropsRest | modes/template.ts:84 | with two or more dots, `x.f.g` splits into `x` and `f`, and everything from the second dot on is dropped |
| JsString.DropTrailingSemicolon | modes/template.ts:75 | the result is the input, or the input without one final `;` |
| JsString.SpliceMinusOneDropsLast | modes/template.ts:236 | `splice(-1, 1)` on a non-empty array removes its last element |
| JsString.SpliceOne | modes/template.ts:234-235 | `splice(start, 1)` removes the element at `start`. A negative start counts from the end and is clamped at the first element; a start past the end removes nothing |
| Markup.FirstNamed | modes/template.ts:97 | the index of `filter(x => x.name == n)[0]`: its attribute has the name, and no earlier one does |
| BindValues.VueClassToSanClass | modes/template.ts:8-39 | the class text is trimmed: a non-empty result neither starts nor ends with white space |
| BindValues.VueStyleToSanStyle | modes/template.ts:41-76 | the style text is trimmed: a non-empty result neither starts nor ends with white space |
| BindValues.ClassWithoutLiteralKeepsStatic | modes/template.ts:8-39 | with no `[`, `]`, `{`, `}` in the binding, the class is the trimmed static class |
| BindValues.ClassWithoutStatic | modes/template.ts:8-39 | with a blank static class, the class is the ` {{ e }}` / ` {{ v ? 'name' : '' }}` pieces joined, minus the leading space |
| BindValues.ClassAfterStatic | modes/template.ts:8-39 | a static class without outer white space comes first, followed directly by the pieces |
| BindValues.StaticStyleTerminated | modes/template.ts:75 | a non-empty static style keeps its one trailing `;` or gains one |
| BindValues.StyleWithoutLiteralKeepsStatic | modes/template.ts:41-76 | with no `{` or `}` in the binding, only the normalised static style remains |
| BindValues.StyleTrimsOnlyFront | modes/template.ts:45-75 | every generated piece and the normalised static style end in `;`, so `trim` removes only leading white space from the assembled style |
| BindValues.StyleAfterStatic | modes/template.ts:41-76 | a static style not starting with white space comes first, with exactly one trailing `;`, followed directly by one `name: value;` piece per property |
| BindValues.StyleWithoutStatic | modes/template.ts:41-76 | with no static style, the result is the pieces with leading white space removed |
| BindValues.FontSizePiece | modes/template.ts:56-58 | a string-valued `fontSize` property gives `font-size: 12px;` |
| BindValues.StyleExample | modes/template.ts:41-76 | `{fontSize: '12px'}` next to `style="color: red"` gives `color: red;font-size: 12px;` |
| AccessPath.SegsOf | modes/javascript.ts:113-125 | a chain has segments exactly when it is an access; string-literal keys become static segments |
| AccessPath.CollectSegments | modes/javascript.ts:113-125 | the `unshift` loop from the outermost access inward gives the segments in source order |
| AccessPath.PathOf | modes/javascript.ts:110-167 | the path fails exactly when the chain has no segment (`dataPathSeg[0]` undefined) |
| AccessPath.PathIsLiteralIff | modes/javascript.ts:129-165 | the path is one string literal if and only if every segment is static |
| AccessPath.StaticPathIsJoinedNames | modes/javascript.ts:129-148 | a fully static chain gives one literal of its names joined by `.` |
| AccessPath.PathEvaluatesToDottedPath | modes/javascript.ts:127-166 | for any values of the dynamic keys, the path expression evaluates to the segment values joined by `.` |
| AccessPath.MixedChainExample | test/test-propertiesChange.ts:37-40 | `this['some'].things['test'+ a][index]` gives `'some.things.' + ('test' + a) + '.' + index` |
| AccessPath.DynamicSeedExample | modes/javascript.ts:129-148 | a dynamic first key seeds a parenthesised copy: `this[a].b` gives `(a) + '.b'` |
| AccessorFinder.MarkThisMatchesReference | modes/javascript.ts:48-89 | the pre-pass plus upward climb equals a top-down pass that hands each `this` the outermost access above it |
| AccessorFinder.ClimbFromAccessEndsAtAccess | modes/javascript.ts:74-80 | climbing from an access ends at an access |
| AccessorFinder.AnchorsAreOutermostAccesses | modes/javascript.ts:70-87 | every returned node is an access whose recorded parent is not an access |
| AccessorFinder.OneAnchorPerAccessedThis | modes/javascript.ts:55-88 | there is one result per `this` directly under an access; a bare `this` adds none, and duplicates are kept |
| AccessorFinder.DuplicateAnchorExample | modes/javascript.ts:74-80 | in `this.a[this.b]` the climb passes through the key, so the whole access is returned twice |
| AccessorFinder.MarkThisAnchors | modes/javascript.ts:48-89 | the pre-pass and climb; what it returns is stated by `MarkThisMatchesReference`, `AnchorsAreOutermostAccesses` and `OneAnchorPerAccessedThis` |
| AccessorReplacer.FirstMatch | modes/javascript.ts:96-101 | the index the visit loop stops at is the first pending pair with the node's identity |
| AccessorReplacer.Replace | modes/javascript.ts:91-108 | the visit with its pending list; what it does is stated by `ReplaceUnmatched`, `ReplaceConsumesAtMostOnce`, `ReplaceIsSubstitution` and `ReplaceConsumesEveryPair` |
| AccessorReplacer.ReplaceUnmatched | modes/javascript.ts:95-105 | a tree holding no pending origin comes back unchanged, and no pair is consumed |
| AccessorReplacer.ReplaceConsumesAtMostOnce | modes/javascript.ts:92-101 | pending pairs only ever shrink (as a multiset); a pair whose origin is not in the tree is untouched |
| AccessorReplacer.ReplaceIsSubstitution | modes/javascript.ts:91-108 | the top-down visit equals replacing each topmost origin node at once; the pending pairs are those whose origin was not reached |
| AccessorReplacer.ReplaceConsumesEveryPair | modes/javascript.ts:91-108 | when origins are in the tree and none lies below another, every pair is used and the result is the substitution |
| MethodRewriter.ClassifyMeaning | modes/javascript.ts:20-44 | each anchor is exactly one of read, write, array mutation or left alone. The first three become a `this.data` call of the matching method, whose first argument evaluates to the dotted path; a write keeps its right side and a mutation its arguments. Each fails exactly when its chain has no segment |
| MethodRewriter.UnchangedWithoutThisAccess | modes/javascript.ts:20-44 | a method with no `this` under an access is returned unchanged |
| MethodRewriter.GetPropertyToGetData | modes/javascript.ts:169-182 | building `this.data.get(path)` fails exactly when the chain is not an access, so it has no segment |
| MethodRewriter.SetPropertyToSetData | modes/javascript.ts:184-197 | building `this.data.set(path, right)` fails exactly when the left side is not an access; the assigned value is kept as the second argument |
| MethodRewriter.ArrayOperatorToArrayData | modes/javascript.ts:200-215 | building `this.data.m(path, args)` fails exactly when the receiver is not an access; the call's arguments follow the path unchanged |
| MethodRewriter.Classify | modes/javascript.ts:23-41 | one loop iteration; the only error it can raise is the empty-path TypeError |
| MethodRewriter.ClassifyAll | modes/javascript.ts:22-42 | the loop yields at most one pair per anchor, and its only error is the empty-path TypeError |
| MethodRewriter.ModifyVueMethods | modes/javascript.ts:20-44 | a method rewrite can fail only with the empty-path TypeError |
| MethodRewriter.ReadExample | modes/javascript.ts:39-41 | a bare statement `this.some` becomes `this.data.get('some')` |
| MethodRewriter.LogExample | test/test.ts:133-157 | `console.log(this.some)` becomes `console.log(this.data.get('some'))`: the chain is an argument, not the callee, so it is read |
| MethodRewriter.WriteExample | test/test.ts:158-182 | `this.some = 1` becomes `this.data.set('some', 1)` |
| MethodRewriter.MutateExample | test/test.ts:183-207 | `this.some.push(1)` becomes `this.data.push('some', 1)` |
| MethodRewriter.ChainOnRightOfAssignmentFails | modes/javascript.ts:27-28 | `a = this.b` takes the assignment branch, and the path of `a` has no segment, so the rewrite fails |
| MethodRewriter.DoubleAssignmentYieldsPairTwice | modes/javascript.ts:23-28 | `this.a = this.b` yields the same `set` pair twice, once per chain |
| MethodRewriter.DoubleAssignmentLeavesPairPending | modes/javascript.ts:96-101 | the replacement consumes one of the two equal pairs; the other is left pending and dropped |
| ComponentOptions.FindDefaultExport | libs/astHelper.ts:244-246 | the index of the first export assignment, or the length when there is none |
| ComponentOptions.ScanMembers | modes/javascript.ts:240-254 | the scan keeps one member per option and records a removal index inside the list |
| ComponentOptions.MapRewrite | modes/javascript.ts:247-251 | each declaration is rewritten with its key kept; the whole fails if and only if some rewrite fails |
| ComponentOptions.RewriteOptions | modes/javascript.ts:238-262 | the options rewrite; what it returns is stated by `RewriteOptionsMatchesReference` |
| ComponentOptions.LastMethodsProp | modes/javascript.ts:240-245 | `methodsToRemove` ends as the last `methods` property assignment, if any |
| ComponentOptions.RewriteDeclsIsMapOfFilter | modes/javascript.ts:246-251 | the loop over a `methods` literal is the rewrite of its method declarations; other members are dropped |
| ComponentOptions.ScanMatchesReference | modes/javascript.ts:240-254 | the `forEach` gives the renamed members, all collected method declarations rewritten, and the last `methods` index |
| ComponentOptions.RewriteOptionsMatchesReference | modes/javascript.ts:238-262 | the rewrite fails exactly when a method rewrite fails. Otherwise it is the renamed options, with the last `methods` property replaced at its own index by every collected method |
| ComponentOptions.SpreadFails | modes/javascript.ts:240-241 | a spread member has no name, so the rewrite fails |
| ComponentOptions.ModifyVueScript | modes/javascript.ts:228-263 | without an object-literal default export the file is unchanged; every other statement is always unchanged |
| ComponentOptions.ScriptRewritesFirstExport | modes/javascript.ts:228-263 | the first export's literal is replaced by its rewritten options, and fails exactly when they do |
| ComponentOptions.LegacyOptionsKeepMethods | index.ts:150-175 | the older revision never fails on named members, renames `data` and splices the method declarations unchanged at the `methods` index |
| ComponentOptions.LegacyModifyScript | index.ts:129-186 | the older script rewrite; what it returns is stated by `LegacyOptionsKeepMethods` |
| ComponentOptions.DataRenamedExample | test/test.ts:85-109 | `data() {...}` becomes `initData() {...}` |
| ComponentOptions.MethodsFlattenedExample | test/test.ts:110-132 | `methods: { test() {} }` becomes `test() {}` |
| ComponentOptions.NonLiteralMethodsRemovedExample | modes/javascript.ts:244-262 | a `methods` whose value is not an object literal is removed and contributes nothing |
| ComponentOptions.TwoMethodsPropsExample | modes/javascript.ts:240-262 | with two `methods` properties, the last is replaced by the methods of both, and the first stays |
| ComponentOptions.SingleMethodFlattened | modes/javascript.ts:244-262 | a literal holding only `methods: { d }` becomes the rewritten `d` |
| ComponentOptions.MethodRewrittenExample | test/test.ts:133-157 | with the newer method rewriter, `methods: { test() { console.log(this.some); } }` becomes `test() { console.log(this.data.get('some')); }` |
| TemplateTranslator.PurgeDeleted | modes/template.ts:206-211 | the backward splice loop leaves exactly the unmarked attributes, in order |
| TemplateTranslator.RuleOf | modes/template.ts:135-198 | the name dispatch of `modifyVueAttr`; its cases are stated by the rename, `v-model`, event, `v-for` and binding lemmas below |
| TemplateTranslator.ModifyAttrAt | modes/template.ts:135-198 | one attribute is rewritten against the whole list, whose length is kept |
| TemplateTranslator.ProcessAttrBind | modes/template.ts:82-121 | a binding rewrite keeps the list length; its cases are stated by `BindBecomesInterpolation`, `BindWithFilter`, `KayBindingUntouched`, `ClassBindingMerges` and `StyleBindingMerges` |
| TemplateTranslator.ModifyFor | modes/template.ts:123-133 | the `v-for` rewrite keeps the list length; `ForAbsorbsKey` states what it does |
| TemplateTranslator.ModifyVueAttrs | modes/template.ts:200-212 | no attribute left by `modifyVueAttrs` is marked deleted |
| TemplateTranslator.KeptCount | modes/template.ts:206-211 | the purge keeps the original count minus the marked ones |
| TemplateTranslator.ModifyVueAttrsPurges | modes/template.ts:200-212 | after `modifyVueAttrs` no attribute is marked. The survivors are exactly the unmarked rewritten attributes, in order and in number |
| TemplateTranslator.ExactRenamesKeepValue | modes/template.ts:145-172 | `v-text`, `v-html`, `v-show`, `v-if`, `v-else`, `v-else-if`, `v-on` are renamed with value and list unchanged |
| TemplateTranslator.InertAttributesUntouched | modes/template.ts:177-197 | `v-pre`, `v-cloak`, `v-once` and names starting with neither `v-`, `@` nor `:` are left as they are |
| TemplateTranslator.ModelBecomesTwoWayValue | modes/template.ts:173-176 | `v-model="e"` becomes `value="{= e =}"` |
| TemplateTranslator.EventBecomesOn | modes/template.ts:188-194 | `@evt` becomes `on-evt` with its value |
| TemplateTranslator.ForAbsorbsKey | modes/template.ts:123-133 | `v-for` becomes `s-for` without parentheses. An attribute still named `:key` is marked deleted and its value appended after ` trackBy `; nothing else changes |
| TemplateTranslator.KeyBeforeForNotAbsorbed | modes/template.ts:127 | a `:key` before `v-for` is renamed first, so it is not absorbed and stays as `key="{{ v }}"` |
| TemplateTranslator.KeyAfterForAbsorbed | modes/template.ts:123-133 | a `:key` after `v-for` is absorbed into `trackBy` and purged |
| TemplateTranslator.BindBecomesInterpolation | modes/template.ts:82-121 | `:x="e"` and `v-bind:x="e"` become `x="{{ e }}"` for every plain name `x` |
| TemplateTranslator.BindWithFilter | modes/template.ts:83-119 | `:x.f="e"` becomes `x="{{ e\| f }}"` |
| TemplateTranslator.KayBindingUntouched | modes/template.ts:91-93 | a binding to `kay` is left as it is |
| TemplateTranslator.UnknownDirectiveDropsFirst | modes/template.ts:182-184 | an unlisted `v-` name other than `v-bind:` loses only its first character and its value is interpolated |
| TemplateTranslator.UnknownDirectiveExample | modes/template.ts:182-184 | `v-on:click="go"` becomes `-on:click="{{ go }}"` |
| TemplateTranslator.ClassBindingMerges | modes/template.ts:94-105 | `:class` marks the first `class` deleted and becomes `class` with the converted text after that static text; nothing else changes |
| TemplateTranslator.StyleBindingMerges | modes/template.ts:106-115 | `:style` likewise merges the first `style` |
| TemplateTranslator.SplitForIfSpec | modes/template.ts:225-236 | the wrapper gets `v-for` and `:key` if present. The element loses both, or, without `:key`, loses `v-for` and its last attribute |
| TemplateTranslator.SplitForIf | modes/template.ts:221-236 | the element always loses exactly two attributes; the wrapper gets one or two, the first being `v-for` |
| TemplateTranslator.IfLostWithoutKey | modes/template.ts:236 | `v-for` + `v-if` without `:key`: the element loses its `v-if` |
| TemplateTranslator.WalkWrapped | modes/template.ts:214-251 | an element with `v-for` and `v-if` becomes a `template` holding the element. The wrapper's attributes and the element's are rewritten, then the children are walked in order |
| TemplateTranslator.WrapperCarriesLoop | modes/template.ts:221-240 | the wrapper carries a single `s-for`, with `trackBy` exactly when a `:key` was present |
| TemplateTranslator.WrapperHoldsElement | modes/template.ts:221-250 | the wrapper's content is the element with the same tag, its remaining attributes rewritten, and every child walked |
| TemplateTranslator.WrapperExample | modes/template.ts:214-251 | `v-for="(some, i) in topList" :key="some.key" v-if="some.data == 1"` gives a `template s-for="some, i in topList trackBy some.key"` around `div s-if="some.data == 1"` |
| TemplateTranslator.Walk | modes/template.ts:214-251 | the walk with a given attribute rewrite; what it does is stated by `WalkWrapped`, `WalkLeavesNoMarks` and `WalkKeepsShape` |
| TemplateTranslator.TranslateTemplate | modes/template.ts:214-251 | the walk from a root without a parent list; `TranslateTemplateSpec` states when it fails |
| TemplateTranslator.WalkLeavesNoMarks | modes/template.ts:214-251 | after the walk no attribute anywhere is marked deleted |
| TemplateTranslator.WalkKeepsShape | modes/template.ts:214-251 | without `v-for` + `v-if` pairs, the walk keeps every node in place |
| TemplateTranslator.TranslateTemplateSpec | modes/template.ts:214-251 | the walk fails exactly when the root itself needs a wrapper. A fragment root never fails; a clean tree stays clean; without pairs the shape is kept |
| TemplateTranslator.PlainAttributesPassThrough | modes/template.ts:135-212 | attributes the table does not touch come out unchanged |
| TemplateTranslator.ParenthesisedVariables | modes/template.ts:123-126 | parentheses around the loop variables are dropped and the rest is kept |
| TemplateTranslator.ForSingle | modes/template.ts:123-126 | a lone `v-for` becomes `s-for` |
| TemplateTranslator.IfSingle | modes/template.ts:157-159 | a lone `v-if` becomes `s-if` |
| LegacyTemplate.LegacyModifyAttr | index.ts:8-96 | the older table never marks or unmarks an attribute; its cases are stated by the `Legacy*` lemmas below |
| LegacyTemplate.LegacyModifyAttrs | index.ts:100-103 | the in-place loop keeps the number of attributes |
| LegacyTemplate.LegacyModifyAttrsPointwise | index.ts:100-103 | the in-place loop, where each step sees the list as earlier steps left it, equals rewriting every attribute on its own, in its place |
| LegacyTemplate.LegacyWalk | index.ts:98-112 | the older walk; `LegacyWalkKeepsShape` states that it keeps the tree's shape |
| LegacyTemplate.LegacyWalkKeepsShape | index.ts:98-112 | the older walk never adds or removes a node or an attribute |
| LegacyTemplate.LegacyAgreesOutsideBindings | index.ts:8-96 | outside bindings (renames, `v-for` alone, `v-model`, events, untouched names) the two tables agree |
| LegacyTemplate.LegacyForIgnoresKey | index.ts:40-45 | `v-for` does not absorb `:key`, which stays as `key="{{ v }}"` |
| LegacyTemplate.LegacyClassKeepsExpression | index.ts:84-88 | `:class` only loses its colon, keeping the raw expression |
| LegacyTemplate.LegacyColonBind | index.ts:89-93 | any other `:x` becomes `x="{{ v }}"` |
| LegacyTemplate.LegacyVBind | index.ts:64-67 | `v-bind:x` becomes `x="{{ v }}"`, with no filter or class/style handling |
| LegacyTemplate.LegacyUnknownDirectiveUntouched | index.ts:62-70 | every `v-` name the switch does not list and that does not start with `v-bind:` (such as `v-on:click`) is left unchanged |

## Left out

- **Parsing and printing.** This covers:
  - parse5 parsing and serialising in `vueToSan`;
  - TypeScript parsing and printing;
  - prettier formatting, including the `.slice(0, -2)` on formatted values.

  Trees are given as datatypes, and printed sub-expressions are opaque strings.
- **Shorthand and spread members** inside a `:class` / `:style` object literal. Such a member has no `initializer`, so the source throws a TypeError when it reads it (`astStringify(property.initializer)`, `ts.isStringLiteral(property.initializer)`). A `BindParser` always returns a `BindShape`, which has no failure case, so the model does not represent this throw.
- **`escapedText` details.** Only identifier names can equal `data` or `methods`.
- **Components outside the core.** These are `getComponentType`, `getMembers`, the no-op `modifyVueMethods` of `index.ts` (modelled as keeping each method), and the TypeScript node-factory and logging helpers of `libs/astHelper.ts`. All are stubs or thin wrappers with no observable behaviour.
- **Fixtures with no code behind them.** The fixtures of `test/test-js.ts` and `test/test-html.ts` call functions that none of the sources define.
- **Console diagnostics.**
- **parse5 bookkeeping.** This covers `nodeName`, `parentNode` and source locations. The wrapper `template` also copies the element's `childNodes` through the spread; serialising a `template` prints only its `content`, so the wrapper is modelled with the element as its only content.
- **The root's own external parent.** The climb in `markThisDataGetOrSet` stops at the walked method node, and nodes above it are not modelled.
- **The caller's replacement list.** `slice` keeps it unmutated; in the model this holds by construction (values, not references), so no lemma states it.
- **The `index.ts` entry point.** The end-to-end tests import this older module; its template and options rewrites are modelled in `LegacyTemplate` and `ComponentOptions`.
- AccessorReplacer.ReplaceIsSubstitution: stated for trees whose nodes carry distinct ids and pair lists with distinct origins. With repeated origins (as `this.a = this.b` produces) only `ReplaceConsumesAtMostOnce` and the concrete `DoubleAssignmentLeavesPairPending` are stated.
- TemplateTranslator.WalkKeepsShape: the shape is stated only for trees with no element carrying both `v-for` and `v-if`; `WalkWrapped` states what happens to those.
