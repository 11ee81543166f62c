/**
 Concrete usages lowered by the pass: a component with a bound property and a
 body, a property whose value mixes text and code, an attribute the component
 does not declare, an empty usage, two bodies, an ambiguous usage, and a usage
 whose first descriptor is not a component.
 */
module Scenarios {
  import opened IR
  import opened ComponentShape
  import opened LoweringPass

  const Greeter := Descriptor("Test.Greeter", ComponentKind, "Test.Greeter")
  const NameAttribute := BoundAttribute("Name", "Name")
  const TitleAttribute := BoundAttribute("Title", "Title")

  /** `<Greeter Name="World">Hi</Greeter>`: open, the attribute, the body, close. */
  lemma GreeterWithNameAndBody()
    ensures var name := TagHelperProperty(Greeter, NameAttribute, [HtmlAttribute([Other("World", [])])]);
      var body := TagHelperBody([Other("Hi", [])]);
      var u := Usage("Greeter", StartTagAndEndTag, [Greeter], [name, body], []);
      LowerUsage(u).children
        == [ComponentOpen("Test.Greeter"),
            ComponentAttribute("Name", [HtmlAttribute([Other("World", [])])]),
            ComponentBody(StartTagAndEndTag, "Greeter", [Other("Hi", [])]),
            ComponentClose]
      && LowerUsage(u).diagnostics == []
  {
    var name := TagHelperProperty(Greeter, NameAttribute, [HtmlAttribute([Other("World", [])])]);
    var body := TagHelperBody([Other("Hi", [])]);
    var s := [name, body];
    assert s[1..] == [body] && [body][1..] == [];
    assert ComplexContent(name) == None;
    assert Kept(Greeter, [body]) == [];
    assert Kept(Greeter, s) == [ComponentAttribute("Name", [HtmlAttribute([Other("World", [])])])];
    assert BodiesInOrder(StartTagAndEndTag, "Greeter", [body])
           == [ComponentBody(StartTagAndEndTag, "Greeter", [Other("Hi", [])])];
    assert BodiesInOrder(StartTagAndEndTag, "Greeter", s)
           == [ComponentBody(StartTagAndEndTag, "Greeter", [Other("Hi", [])])];
    assert ComplexInOrder(Greeter, [body]) == [];
    assert ComplexInOrder(Greeter, s) == [];
    assert UnboundInOrder(Greeter.typeName, [body]) == [];
    assert UnboundInOrder(Greeter.typeName, s) == [];
  }

  /** `Title="Hello @name!"`: the value has three parts, so the property is rejected and gone. */
  lemma MixedTitleRejected()
    ensures var parts := [Other("Hello ", []), CSharpExpression([Other("name", [])]), Other("!", [])];
      var title := TagHelperProperty(Greeter, TitleAttribute, [HtmlAttribute(parts)]);
      var u := Usage("Greeter", SelfClosing, [Greeter], [title], []);
      && LowerUsage(u).children == [ComponentOpen("Test.Greeter"), ComponentClose]
      && LowerUsage(u).diagnostics == [UnsupportedComplexContent(title, parts)]
  {
    var parts := [Other("Hello ", []), CSharpExpression([Other("name", [])]), Other("!", [])];
    var title := TagHelperProperty(Greeter, TitleAttribute, [HtmlAttribute(parts)]);
    var s := [title];
    assert s[1..] == [];
    assert ComplexContent(title) == Some(parts);
    assert Kept(Greeter, s) == [];
    assert BodiesInOrder(SelfClosing, "Greeter", s) == [];
    assert ComplexInOrder(Greeter, s) == [UnsupportedComplexContent(title, parts)];
    assert UnboundInOrder(Greeter.typeName, s) == [];
    assert Reverse([UnsupportedComplexContent(title, parts)]) == [UnsupportedComplexContent(title, parts)];
  }

  /** `data-custom="x"` is not a property of the component: reported and removed. */
  lemma UndeclaredAttributeRejected()
    ensures var custom := TagHelperHtmlAttribute("data-custom", [Other("x", [])]);
      var u := Usage("Greeter", SelfClosing, [Greeter], [custom], []);
      && LowerUsage(u).children == [ComponentOpen("Test.Greeter"), ComponentClose]
      && LowerUsage(u).diagnostics == [UnboundComponentAttribute("Test.Greeter", custom)]
  {
    var custom := TagHelperHtmlAttribute("data-custom", [Other("x", [])]);
    var s := [custom];
    assert s[1..] == [];
    assert Kept(Greeter, s) == [];
    assert BodiesInOrder(SelfClosing, "Greeter", s) == [];
    assert ComplexInOrder(Greeter, s) == [];
    assert UnboundInOrder(Greeter.typeName, s) == [UnboundComponentAttribute("Test.Greeter", custom)];
    assert Reverse([UnboundComponentAttribute("Test.Greeter", custom)])
           == [UnboundComponentAttribute("Test.Greeter", custom)];
  }

  /** A usage with no attribute and no body gets open and close only: no empty body is added. */
  lemma EmptyUsageGetsNoBody()
    ensures var u := Usage("Greeter", SelfClosing, [Greeter], [], []);
      LowerUsage(u).children == [ComponentOpen("Test.Greeter"), ComponentClose]
  {
  }

  /** Two bodies come out as component bodies in reverse order, the attribute between them first. */
  lemma TwoBodiesReversed()
    ensures var first := TagHelperBody([Other("first", [])]);
      var name := TagHelperProperty(Greeter, NameAttribute, [CSharpExpression([Other("who", [])])]);
      var second := TagHelperBody([Other("second", [])]);
      var u := Usage("Greeter", StartTagAndEndTag, [Greeter], [first, name, second], []);
      LowerUsage(u).children
        == [ComponentOpen("Test.Greeter"),
            ComponentAttribute("Name", [CSharpExpression([Other("who", [])])]),
            ComponentBody(StartTagAndEndTag, "Greeter", [Other("second", [])]),
            ComponentBody(StartTagAndEndTag, "Greeter", [Other("first", [])]),
            ComponentClose]
  {
    var first := TagHelperBody([Other("first", [])]);
    var name := TagHelperProperty(Greeter, NameAttribute, [CSharpExpression([Other("who", [])])]);
    var second := TagHelperBody([Other("second", [])]);
    var s := [first, name, second];
    assert s[1..] == [name, second] && [name, second][1..] == [second] && [second][1..] == [];
    assert ComplexContent(name) == None;
    var cbFirst := ComponentBody(StartTagAndEndTag, "Greeter", [Other("first", [])]);
    var cbSecond := ComponentBody(StartTagAndEndTag, "Greeter", [Other("second", [])]);
    assert BodiesInOrder(StartTagAndEndTag, "Greeter", [second]) == [cbSecond];
    assert BodiesInOrder(StartTagAndEndTag, "Greeter", [name, second]) == [cbSecond];
    assert BodiesInOrder(StartTagAndEndTag, "Greeter", s) == [cbFirst, cbSecond];
    assert Reverse([cbFirst, cbSecond]) == [cbSecond, cbFirst] by {
      assert [cbFirst, cbSecond][1..] == [cbSecond];
      assert Reverse([cbSecond]) == [cbSecond];
    }
    var attribute := ComponentAttribute("Name", [CSharpExpression([Other("who", [])])]);
    assert Kept(Greeter, [second]) == [];
    assert Kept(Greeter, [name, second]) == [attribute];
    assert Kept(Greeter, s) == [attribute];
  }

  /** Two component descriptors: the ambiguity is reported and the first one is used. */
  lemma AmbiguousUsesFirst()
    ensures var other := Descriptor("Test.Other", ComponentKind, "Test.Other");
      var u := Usage("Greeter", SelfClosing, [Greeter, other], [], []);
      && LowerUsage(u).children == [ComponentOpen("Test.Greeter"), ComponentClose]
      && LowerUsage(u).diagnostics == [MultipleComponents("Greeter", [Greeter, other])]
  {
  }

  /** An ordinary tag helper bound first, a component second: the usage is not lowered,
      and it gets only the ambiguity diagnostic. */
  lemma OrdinaryFirstNotLowered()
    ensures var ordinary := Descriptor("Test.Bold", OtherKind("default"), "Test.Bold");
      var body := TagHelperBody([Other("Hi", [])]);
      var u := Usage("Greeter", StartTagAndEndTag, [ordinary, Greeter], [body], []);
      && LowerUsage(u).children == [body]
      && LowerUsage(u).diagnostics == [MultipleComponents("Greeter", [ordinary, Greeter])]
  {
  }
}
