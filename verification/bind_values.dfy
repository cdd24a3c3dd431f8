/** `vueClassToSanClass` and `vueStyleToSanStyle`: the attribute text built
    from a `:class` / `:style` binding. Parsing the bound expression and
    printing its parts are outside the model: a `BindParser` gives the
    parsed literal with each printed sub-expression as an opaque string. */
module BindValues {
  import opened Results
  import opened JsString
  import opened CaseUtil

  /** A property of a bound object literal: its name, its printed value,
      and the text of the value when the value is a string literal. */
  datatype BindProp = BindProp(name: string, printed: string, stringText: Option<string>)

  /** The parsed binding: an array literal (printed elements), an object
      literal, or anything else. */
  datatype BindShape = ArrayLit(elems: seq<string>) | ObjectLit(props: seq<BindProp>) | OtherShape

  type BindParser = string -> BindShape

  function Concat(ps: seq<string>): string {
    if |ps| == 0 then "" else ps[0] + Concat(ps[1..])
  }

  /** An interpolation ` {{ ... }}`: starts with a space and a brace and
      ends with a brace. */
  predicate IsInterpolationPiece(p: string) {
    |p| >= 2 && p[0] == ' ' && p[1] == '{' && p[|p| - 1] == '}'
  }

  function ClassElemPiece(e: string): (p: string)
    ensures IsInterpolationPiece(p)
  {
    " {{ " + e + " }}"
  }

  function ClassPropPiece(b: BindProp): (p: string)
    ensures IsInterpolationPiece(p)
  {
    " {{ " + b.printed + " ? '" + b.name + "' : '' }}"
  }

  /** The pieces a class binding contributes, one per element or property. */
  function ClassPieces(value: string, parse: BindParser): (ps: seq<string>)
    ensures forall k :: 0 <= k < |ps| ==> IsInterpolationPiece(ps[k])
  {
    if !ContainsAny(value, "[]{}") then []
    else match parse(value)
      case ArrayLit(es) => seq(|es|, k requires 0 <= k < |es| => ClassElemPiece(es[k]))
      case ObjectLit(bs) => seq(|bs|, k requires 0 <= k < |bs| => ClassPropPiece(bs[k]))
      case OtherShape => []
  }

  /** `vueClassToSanClass(value, classAttr)`. */
  function VueClassToSanClass(value: string, classAttr: string, parse: BindParser): (r: string)
    ensures |r| > 0 ==> !IsJsSpace(r[0]) && !IsJsSpace(r[|r| - 1])
  {
    Trim(classAttr + Concat(ClassPieces(value, parse)))
  }

  predicate EndsInSemicolon(p: string) {
    |p| > 0 && p[|p| - 1] == ';'
  }

  /** `name: text;` for a string-literal value, `name: {{ value }};`
      otherwise, with the name dashed. */
  function StylePiece(b: BindProp): (p: string)
    ensures EndsInSemicolon(p)
  {
    CamelCaseToDashed(b.name) + ": " +
      (if b.stringText.Some? then b.stringText.value + ";" else "{{ " + b.printed + " }};")
  }

  function StylePieces(value: string, parse: BindParser): (ps: seq<string>)
    ensures forall k :: 0 <= k < |ps| ==> EndsInSemicolon(ps[k])
  {
    if !ContainsAny(value, "{}") then []
    else match parse(value)
      case ObjectLit(bs) => seq(|bs|, k requires 0 <= k < |bs| => StylePiece(bs[k]))
      case _ => []
  }

  /** The static style as emitted: empty stays empty, otherwise one
      trailing `;` is dropped and one added. */
  function StaticStyle(styleAttr: string): string {
    if styleAttr == "" then "" else DropTrailingSemicolon(styleAttr) + ";"
  }

  /** `vueStyleToSanStyle(value, styleAttr)`. */
  function VueStyleToSanStyle(value: string, styleAttr: string, parse: BindParser): (r: string)
    ensures |r| > 0 ==> !IsJsSpace(r[0]) && !IsJsSpace(r[|r| - 1])
  {
    Trim(StaticStyle(styleAttr) + Concat(StylePieces(value, parse)))
  }

  // ---------------------------------------------------------------------
  // What the assembled text is

  lemma {:induction false} ConcatOfPieces(ps: seq<string>)
    requires forall k :: 0 <= k < |ps| ==> IsInterpolationPiece(ps[k])
    ensures |ps| > 0 ==> IsInterpolationPiece(Concat(ps))
    ensures |ps| == 0 ==> Concat(ps) == ""
  {
    if |ps| > 0 {
      ConcatOfPieces(ps[1..]);
      var c := Concat(ps);
      assert c == ps[0] + Concat(ps[1..]);
      assert c[0] == ps[0][0] && c[1] == ps[0][1];
    }
  }

  lemma {:induction false} TrimStartSpaces(w: string, x: string)
    requires AllSpace(w)
    ensures TrimStart(w + x) == TrimStart(x)
  {
    if |w| > 0 {
      assert (w + x)[0] == w[0];
      assert (w + x)[1..] == w[1..] + x;
      TrimStartSpaces(w[1..], x);
    } else {
      assert w + x == x;
    }
  }

  /** An all-space text followed by interpolations trims to the
      interpolations without their first space. */
  lemma TrimBeforePieces(w: string, p: string)
    requires AllSpace(w) && IsInterpolationPiece(p)
    ensures Trim(w + p) == p[1..]
  {
    TrimStartSpaces(w, p);
    PieceTrimsToTail(p);
  }

  lemma PieceTrimsToTail(p: string)
    requires IsInterpolationPiece(p)
    ensures Trim(p) == p[1..]
  {
    var q := p[1..];
    assert TrimStart(p) == q by {
      assert IsJsSpace(p[0]);
      assert q[0] == '{';
    }
    assert q[|q| - 1] == '}';
    TrimKeepsInner(q);
  }

  /** A static text without outer white space keeps its place in front of
      the interpolations. */
  lemma TrimAfterStatic(s: string, p: string)
    requires |s| > 0 && !IsJsSpace(s[0]) && !IsJsSpace(s[|s| - 1])
    requires p == "" || IsInterpolationPiece(p)
    ensures Trim(s + p) == s + p
  {
    var t := s + p;
    assert t[0] == s[0];
    assert t[|t| - 1] == if p == "" then s[|s| - 1] else p[|p| - 1];
    TrimKeepsInner(t);
  }

  /** Without `[`, `]`, `{` or `}` the binding is discarded and the static
      class is returned trimmed. */
  lemma ClassWithoutLiteralKeepsStatic(value: string, classAttr: string, parse: BindParser)
    requires !ContainsAny(value, "[]{}")
    ensures VueClassToSanClass(value, classAttr, parse) == Trim(classAttr)
  {
    assert classAttr + "" == classAttr;
  }

  /** With no static class, the class is the interpolations, one per array
      element (` {{ e }}`) or object property (` {{ v ? 'name' : '' }}`),
      joined by single spaces. */
  lemma ClassWithoutStatic(value: string, classAttr: string, parse: BindParser)
    requires AllSpace(classAttr)
    requires |ClassPieces(value, parse)| > 0
    ensures VueClassToSanClass(value, classAttr, parse) == Concat(ClassPieces(value, parse))[1..]
  {
    ConcatOfPieces(ClassPieces(value, parse));
    TrimBeforePieces(classAttr, Concat(ClassPieces(value, parse)));
  }

  /** A static class without outer white space comes first, followed by the
      interpolations. */
  lemma ClassAfterStatic(value: string, classAttr: string, parse: BindParser)
    requires |classAttr| > 0 && !IsJsSpace(classAttr[0]) && !IsJsSpace(classAttr[|classAttr| - 1])
    ensures VueClassToSanClass(value, classAttr, parse) == classAttr + Concat(ClassPieces(value, parse))
  {
    ConcatOfPieces(ClassPieces(value, parse));
    TrimAfterStatic(classAttr, Concat(ClassPieces(value, parse)));
  }

  /** A non-empty static style ends in exactly the one `;` it already had,
      or gains one. */
  lemma StaticStyleTerminated(styleAttr: string)
    requires styleAttr != ""
    ensures styleAttr[|styleAttr| - 1] == ';' ==> StaticStyle(styleAttr) == styleAttr
    ensures styleAttr[|styleAttr| - 1] != ';' ==> StaticStyle(styleAttr) == styleAttr + ";"
  {
    if styleAttr[|styleAttr| - 1] == ';' {
      assert styleAttr[..|styleAttr| - 1] + ";" == styleAttr;
    }
  }

  /** Without `{` or `}` the binding is discarded and only the normalised
      static style remains. */
  lemma StyleWithoutLiteralKeepsStatic(value: string, styleAttr: string, parse: BindParser)
    requires !ContainsAny(value, "{}")
    ensures VueStyleToSanStyle(value, styleAttr, parse) == Trim(StaticStyle(styleAttr))
  {
    assert StaticStyle(styleAttr) + "" == StaticStyle(styleAttr);
  }

  lemma {:induction false} ConcatEndsInSemicolon(ps: seq<string>)
    requires forall k :: 0 <= k < |ps| ==> EndsInSemicolon(ps[k])
    ensures Concat(ps) == "" || EndsInSemicolon(Concat(ps))
  {
    if |ps| > 0 {
      ConcatEndsInSemicolon(ps[1..]);
      var c := Concat(ps);
      assert c == ps[0] + Concat(ps[1..]);
      if Concat(ps[1..]) == "" {
        assert c[|c| - 1] == ps[0][|ps[0]| - 1];
      } else {
        assert c[|c| - 1] == Concat(ps[1..])[|Concat(ps[1..])| - 1];
      }
    }
  }

  /** A text that ends in `;` loses only leading white space to `trim`. */
  lemma TrimBeforeSemicolon(x: string)
    requires x == "" || EndsInSemicolon(x)
    ensures Trim(x) == TrimStart(x)
  {
    var t := TrimStart(x);
    if |t| > 0 {
      assert t[|t| - 1] == x[|x| - 1];
    }
  }

  /** Every piece a style binding contributes ends in `;`, and so does the
      normalised static style, so `trim` only ever removes leading white
      space from the assembled style. */
  lemma StyleTrimsOnlyFront(value: string, styleAttr: string, parse: BindParser)
    ensures VueStyleToSanStyle(value, styleAttr, parse)
         == TrimStart(StaticStyle(styleAttr) + Concat(StylePieces(value, parse)))
  {
    var st := StaticStyle(styleAttr);
    var c := Concat(StylePieces(value, parse));
    ConcatEndsInSemicolon(StylePieces(value, parse));
    var x := st + c;
    if c != "" {
      assert x[|x| - 1] == c[|c| - 1];
    } else {
      assert x == st;
    }
    TrimBeforeSemicolon(x);
  }

  /** A static style that does not start with white space comes first,
      ending in exactly one `;`, and is followed directly by one
      `name: value;` piece per property of the bound object literal. */
  lemma StyleAfterStatic(value: string, styleAttr: string, parse: BindParser)
    requires styleAttr != "" && !IsJsSpace(styleAttr[0])
    ensures VueStyleToSanStyle(value, styleAttr, parse)
         == StaticStyle(styleAttr) + Concat(StylePieces(value, parse))
  {
    StyleTrimsOnlyFront(value, styleAttr, parse);
    StaticStyleTerminated(styleAttr);
    var st := StaticStyle(styleAttr);
    var x := st + Concat(StylePieces(value, parse));
    assert x[0] == st[0];
    assert st[0] == styleAttr[0] || st == ";";
  }

  /** With no static style the result is the pieces, with leading white
      space trimmed and nothing removed at the end. */
  lemma StyleWithoutStatic(value: string, parse: BindParser)
    ensures VueStyleToSanStyle(value, "", parse) == TrimStart(Concat(StylePieces(value, parse)))
  {
    StyleTrimsOnlyFront(value, "", parse);
    assert StaticStyle("") + Concat(StylePieces(value, parse)) == Concat(StylePieces(value, parse));
  }

  lemma {:induction false} FontSizePiece()
    ensures StylePiece(BindProp("fontSize", "'12px'", Some("12px"))) == "font-size: 12px;"
  {
    FontSizeExample();
    assert "font-size" + ": " + ("12px" + ";") == "font-size: 12px;";
  }

  /** `:style="{fontSize: '12px'}"` next to `style="color: red"` gives
      `color: red;font-size: 12px;`. */
  lemma {:induction false} StyleExample(v: string, st: string, parse: BindParser)
    requires v == "{fontSize: '12px'}" && st == "color: red"
    requires parse(v) == ObjectLit([BindProp("fontSize", "'12px'", Some("12px"))])
    ensures VueStyleToSanStyle(v, st, parse) == "color: red;font-size: 12px;"
  {
    FontSizeStylePieces(v, parse);
    ColorRedStatic();
    StyleFromParts(v, st, parse, "color: red;", "font-size: 12px;");
    ColorRedJoined();
  }

  lemma StyleFromParts(v: string, st: string, parse: BindParser, a: string, b: string)
    requires st != "" && !IsJsSpace(st[0])
    requires StaticStyle(st) == a && Concat(StylePieces(v, parse)) == b
    ensures VueStyleToSanStyle(v, st, parse) == a + b
  {
    StyleAfterStatic(v, st, parse);
  }

  lemma FontSizeStylePieces(v: string, parse: BindParser)
    requires v == "{fontSize: '12px'}"
    requires parse(v) == ObjectLit([BindProp("fontSize", "'12px'", Some("12px"))])
    ensures Concat(StylePieces(v, parse)) == "font-size: 12px;"
  {
    assert v[0] in "{}";
    var piece := "font-size: 12px;";
    FontSizePiece();
    assert StylePieces(v, parse) == [piece];
    assert [piece][1..] == [];
    assert piece + "" == piece;
  }

  lemma ColorRedStatic()
    ensures StaticStyle("color: red") == "color: red;"
  {
    assert "color: red"[|"color: red"| - 1] == 'd';
  }

  lemma ColorRedJoined()
    ensures "color: red;" + "font-size: 12px;" == "color: red;font-size: 12px;"
  {
  }
}
