/**
 The intermediate representation the component lowering pass works on: the
 node kinds a tag-helper usage can hold before and after lowering, the
 descriptors a usage is bound to, and the diagnostics the pass records.

 Nodes are immutable values; a usage's child list is a `seq<Node>` and the
 pass returns a new usage instead of mutating the old one.
 */
module IR {

  datatype Option<+T> = None | Some(value: T)

  /** Kind of a tag-helper descriptor. Only descriptors of the component kind are lowered. */
  datatype DescriptorKind = ComponentKind | OtherKind(name: string)

  /** A tag-helper descriptor, reduced to what the pass reads: its identity (`name`),
      its kind and the component type name it resolves to. */
  datatype Descriptor = Descriptor(name: string, kind: DescriptorKind, typeName: string)

  /** A bound attribute of a descriptor and the component property it sets. */
  datatype BoundAttribute = BoundAttribute(name: string, propertyName: string)

  datatype TagMode = StartTagAndEndTag | SelfClosing | StartTagOnly

  /** The node kinds that can appear among a tag-helper usage's children. */
  datatype Node =
    | TagHelperBody(children: seq<Node>)
    | TagHelperProperty(tagHelper: Descriptor, boundAttribute: BoundAttribute, children: seq<Node>)
    | TagHelperHtmlAttribute(attributeName: string, children: seq<Node>)
    | HtmlAttribute(children: seq<Node>)
    | CSharpExpression(children: seq<Node>)
    | ComponentOpen(typeName: string)
    | ComponentBody(tagMode: TagMode, tagName: string, children: seq<Node>)
    | ComponentAttribute(propertyName: string, children: seq<Node>)
    | ComponentClose
    | Other(name: string, children: seq<Node>)

  /** Diagnostics, by kind with the nodes they report on (message text and spans are not modelled). */
  datatype Diagnostic =
    | MultipleComponents(tagName: string, tagHelpers: seq<Descriptor>)
    | UnsupportedComplexContent(property: Node, content: seq<Node>)
    | UnboundComponentAttribute(typeName: string, attribute: Node)

  /** A tag-helper usage: one custom tag in the document with the descriptors bound to it. */
  datatype Usage = Usage(
    tagName: string,
    tagMode: TagMode,
    tagHelpers: seq<Descriptor>,
    children: seq<Node>,
    diagnostics: seq<Diagnostic>)

  /** A document, reduced to whether its primary namespace and class exist and the
      tag-helper usages found in it, in search order. */
  datatype Document = Document(hasPrimaryNamespace: bool, hasPrimaryClass: bool, usages: seq<Usage>)

  predicate IsComponent(d: Descriptor) {
    d.kind == ComponentKind
  }

  predicate IsBody(n: Node) {
    n.TagHelperBody?
  }

  predicate IsUnboundAttribute(n: Node) {
    n.TagHelperHtmlAttribute?
  }

  /** A property node set through descriptor `d` (the only ones `d`'s rewrite touches). */
  predicate IsBoundTo(d: Descriptor, n: Node) {
    n.TagHelperProperty? && n.tagHelper == d
  }

  /** The value segments a property carries: the children of its single
      HTML-attribute-value or C#-expression child, otherwise its own children. */
  function SegmentsOf(p: Node): seq<Node>
    requires p.TagHelperProperty?
  {
    var cs := p.children;
    if |cs| == 1 && (cs[0].HtmlAttribute? || cs[0].CSharpExpression?) then cs[0].children else cs
  }

  /** The content a property is rejected for, tested in the order the pass tests it:
      a single HTML value with several parts, a single C# expression with several
      parts, or several children. `None` when the property is simple. */
  function ComplexContent(p: Node): (r: Option<seq<Node>>)
    requires p.TagHelperProperty?
    ensures r.Some? <==> |SegmentsOf(p)| > 1
    ensures r.Some? ==> r.value == SegmentsOf(p)
  {
    var cs := p.children;
    if |cs| == 1 && cs[0].HtmlAttribute? && |cs[0].children| > 1 then Some(cs[0].children)
    else if |cs| == 1 && cs[0].CSharpExpression? && |cs[0].children| > 1 then Some(cs[0].children)
    else if |cs| > 1 then Some(cs)
    else None
  }

  predicate IsComplex(p: Node)
    requires p.TagHelperProperty?
  {
    ComplexContent(p).Some?
  }
}
