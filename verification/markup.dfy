/** The parse5 tree the template translators walk. */
module Markup {

  /** An attribute; `deleted` is the mark the newer translator sets before
      purging (parse5 itself never sets it). */
  datatype Attr = Attr(name: string, value: string, deleted: bool)

  /** Template nodes. An element carries attributes and child nodes; a
      `template` element carries attributes and a separate `content`
      fragment (its own child list is empty); a fragment carries child
      nodes only; text and comment nodes carry neither. */
  datatype Node =
    | Element(tag: string, attrs: seq<Attr>, children: seq<Node>)
    | Template(attrs: seq<Attr>, content: seq<Node>)
    | Fragment(children: seq<Node>)
    | Text(text: string)

  /** The walk's only failure: a root element that has to be wrapped has
      no parent child list to be spliced into. */
  datatype TemplateError = NoParentList

  /** Index of the first attribute currently called `name`, or `|attrs|`
      (`attrs.filter(x => x.name == name)[0]`). */
  function FirstNamed(attrs: seq<Attr>, name: string): (i: nat)
    ensures i <= |attrs|
    ensures i < |attrs| ==> attrs[i].name == name
    ensures forall k :: 0 <= k < i ==> attrs[k].name != name
  {
    if |attrs| == 0 then 0
    else if attrs[0].name == name then 0
    else 1 + FirstNamed(attrs[1..], name)
  }

  /** The first-match index is determined by its characterisation. */
  lemma {:induction false} FirstNamedIs(attrs: seq<Attr>, name: string, j: nat)
    requires j <= |attrs|
    requires j < |attrs| ==> attrs[j].name == name
    requires forall k :: 0 <= k < j ==> attrs[k].name != name
    ensures FirstNamed(attrs, name) == j
  {
    if |attrs| > 0 && attrs[0].name != name {
      FirstNamedIs(attrs[1..], name, j - 1);
    }
  }

  /** Updating one attribute to another that is, like it, not called `name`
      does not move the first `name`. */
  lemma FirstNamedAfterUpdate(attrs: seq<Attr>, i: nat, a: Attr, name: string)
    requires i < |attrs| && attrs[i].name != name && a.name != name
    ensures FirstNamed(attrs[i := a], name) == FirstNamed(attrs, name)
  {
    FirstNamedIs(attrs[i := a], name, FirstNamed(attrs, name));
  }
}
