# Blazor component lowering pass, modelled in Dafny

This project models Blazor's Razor compiler pass `ComponentLoweringPass`. It runs on a
document's intermediate representation and lowers every tag-helper usage whose first
bound descriptor is of the component kind into the node sequence that the code
generator expects:

- a `ComponentOpen` node carrying the component's type name comes first;
- every property bound to the component becomes a `ComponentAttribute` in place;
- every tag-helper body moves to the end as a `ComponentBody`;
- a `ComponentClose` node comes last.

A usage whose first descriptor is not a component is left as it is. The pass reports
problems as diagnostics and keeps lowering. A usage bound to several descriptors gets a
`MultipleComponents` diagnostic and is still lowered with its first descriptor. A property with mixed
text-and-code content is removed with `UnsupportedComplexContent`. An HTML attribute
the component does not declare is removed with `UnboundComponentAttribute`.

Files:

- `ir.dfy` (module `IR`): node kinds, descriptors, diagnostics, usages and documents as
  immutable datatypes. It also holds the test that decides when a property's content is
  complex.
- `component_shape.dfy` (module `ComponentShape`): a usage's children and diagnostics
  after lowering, defined in one pass over the original children. It also holds the
  properties of that shape: ordering, counting, and "nothing else changes".
- `usage_rewriter.dfy` (module `UsageRewriter`): `RewriteUsage` with its three
  reverse-index loops, written as methods over `seq<Node>`. The loop invariants track
  the processed suffix. `StepsCompose` proves that the loops together produce the shape
  in `ComponentShape`.
- `lowering_pass.dfy` (module `LoweringPass`): `ExecuteCore`, with the bail-out, the
  ambiguity diagnostic, and one rewrite per usage.
- `scenarios.dfy` (module `Scenarios`): concrete usages and the result the pass gives
  for each.

All source paths below are in
`src/Microsoft.AspNetCore.Blazor.Razor.Extensions/ComponentLoweringPass.cs`.

## Model

| member | source | states |
|---|---|---|
| `IR.ComplexContent` | src/Microsoft.AspNetCore.Blazor.Razor.Extensions/ComponentLoweringPass.cs:82-115 | A property is rejected exactly when it carries more than one value segment. Segments are the children of a lone HTML-value child or lone C#-expression child, and otherwise the property's own children. The rejected content is exactly those segments. |
| `UsageRewriter.RelocateBodies` | src/Microsoft.AspNetCore.Blazor.Razor.Extensions/ComponentLoweringPass.cs:52-67 | The reverse scan removes every tag-helper body. It appends a component body with the body's content, tag mode and tag name. The result is every non-body child in order, then the component bodies, last body first. |
| `UsageRewriter.LowerBoundProperties` | src/Microsoft.AspNetCore.Blazor.Razor.Extensions/ComponentLoweringPass.cs:72-122 | The reverse scan maps each child to its image. A complex property bound to the descriptor maps to nothing and gets one UnsupportedComplexContent diagnostic. A simple one maps to a ComponentAttribute with the bound attribute's property name. Any other child maps to itself. Diagnostics are appended last child first. |
| `UsageRewriter.PruneUnboundAttributes` | src/Microsoft.AspNetCore.Blazor.Razor.Extensions/ComponentLoweringPass.cs:125-135 | The reverse scan removes every unbound HTML attribute and nothing else. For each one it appends one UnboundComponentAttribute diagnostic naming the component type and that attribute. |
| `UsageRewriter.RewriteUsage` | src/Microsoft.AspNetCore.Blazor.Razor.Extensions/ComponentLoweringPass.cs:38-136 | A non-component descriptor leaves the usage unchanged. Otherwise: the first child is ComponentOpen with the type name and the last is ComponentClose. No body, unbound attribute or bound property remains. One diagnostic is added per complex bound property and per unbound attribute. |
| `UsageRewriter.StepsCompose` | src/Microsoft.AspNetCore.Blazor.Razor.Extensions/ComponentLoweringPass.cs:47-135 | Open insertion, the body scan, close insertion, the property scan and the attribute scan together give the single-pass lowered shape and its diagnostics. |
| `ComponentShape.LoweredEnds` | src/Microsoft.AspNetCore.Blazor.Razor.Extensions/ComponentLoweringPass.cs:47-69 | Open, with the descriptor's type name, is first and close is last. Between them are the kept children and one component body per tag-helper body. |
| `ComponentShape.BodiesBeforeClose` | src/Microsoft.AspNetCore.Blazor.Razor.Extensions/ComponentLoweringPass.cs:58-69 | Each of the last (#tag-helper bodies) positions before the close holds a component body. |
| `ComponentShape.NothingRejectedLeft` | src/Microsoft.AspNetCore.Blazor.Razor.Extensions/ComponentLoweringPass.cs:52-135 | No tag-helper body, unbound HTML attribute or property bound to the descriptor is left anywhere among the lowered children. |
| `ComponentShape.ComponentBodyCount` | src/Microsoft.AspNetCore.Blazor.Razor.Extensions/ComponentLoweringPass.cs:52-67 | There are as many new component bodies as tag-helper bodies, so none are created when there was no body. Component bodies already present are kept. |
| `ComponentShape.UntouchedInOrder` | src/Microsoft.AspNetCore.Blazor.Razor.Extensions/ComponentLoweringPass.cs:72-135 | Keeps every child the rewrite has no reason to touch, unchanged and in the same relative order. This includes properties bound to another descriptor. It does not cover component nodes already present. |
| `ComponentShape.PropertyFate` | src/Microsoft.AspNetCore.Blazor.Razor.Extensions/ComponentLoweringPass.cs:74-121 | A complex bound property is reported with exactly the content it is rejected for. A simple one appears as a ComponentAttribute with its property name and its content. |
| `ComponentShape.UnboundFate` | src/Microsoft.AspNetCore.Blazor.Razor.Extensions/ComponentLoweringPass.cs:127-133 | Every unbound HTML attribute is reported with the component's type name. |
| `ComponentShape.LoweredDiagnosticsAccount` | src/Microsoft.AspNetCore.Blazor.Razor.Extensions/ComponentLoweringPass.cs:72-135 | Diagnostics added = (#complex bound properties) + (#unbound attributes). Each one names an original child of the right kind, and none reports multiple components. |
| `ComponentShape.RewrittenShape` | src/Microsoft.AspNetCore.Blazor.Razor.Extensions/ComponentLoweringPass.cs:38-136 | These shape, body-count and diagnostic-count facts hold for a whole usage rewritten with a component descriptor. Earlier diagnostics are kept as a prefix. |
| `ComponentShape.SecondRewriteWrapsAgain` | src/Microsoft.AspNetCore.Blazor.Razor.Extensions/ComponentLoweringPass.cs:40-69 | Rewriting an already lowered usage again wraps it in a second open/close pair and adds no diagnostic. The rewrite is not idempotent. |
| `LoweringPass.ExecuteCore` | src/Microsoft.AspNetCore.Blazor.Razor.Extensions/ComponentLoweringPass.cs:13-36 | Without the primary namespace or class the document is returned unchanged. Otherwise every usage is lowered with its first descriptor and gains exactly one MultipleComponents diagnostic iff it has more than one descriptor. |
| `LoweringPass.AmbiguityReportedOnce` | src/Microsoft.AspNetCore.Blazor.Razor.Extensions/ComponentLoweringPass.cs:29-34 | One MultipleComponents diagnostic for more than one descriptor and none for one. Earlier diagnostics are preserved as a prefix. |
| `LoweringPass.NonComponentUntouched` | src/Microsoft.AspNetCore.Blazor.Razor.Extensions/ComponentLoweringPass.cs:40-43 | A usage whose first descriptor is not a component keeps its children. With a single descriptor the whole usage is unchanged. |
| `LoweringPass.DiagnosticsAdded` | src/Microsoft.AspNetCore.Blazor.Razor.Extensions/ComponentLoweringPass.cs:26-35 | Diagnostics added per usage = 1 if ambiguous, plus (#complex + #unbound) for a component. Tag name, tag mode and descriptors never change. |
| `LoweringPass.AmbiguousStillLowered` | src/Microsoft.AspNetCore.Blazor.Razor.Extensions/ComponentLoweringPass.cs:29-34 | An ambiguous usage is still rewritten with its first descriptor: open first, close last, no body or unbound attribute left. |
| `Scenarios.GreeterWithNameAndBody` | src/Microsoft.AspNetCore.Blazor.Razor.Extensions/ComponentLoweringPass.cs:38-136 | `<Greeter Name="World">Hi</Greeter>` lowers to open, attribute `Name`, body, close, with no diagnostic. |
| `Scenarios.MixedTitleRejected` | src/Microsoft.AspNetCore.Blazor.Razor.Extensions/ComponentLoweringPass.cs:82-93 | A three-part `Title` value is reported with its three parts and is absent from the children. |
| `Scenarios.UndeclaredAttributeRejected` | src/Microsoft.AspNetCore.Blazor.Razor.Extensions/ComponentLoweringPass.cs:125-135 | `data-custom="x"` is reported as unbound and is absent from the children. |
| `Scenarios.EmptyUsageGetsNoBody` | src/Microsoft.AspNetCore.Blazor.Razor.Extensions/ComponentLoweringPass.cs:47-69 | A usage with no attribute and no body lowers to open and close only. |
| `Scenarios.TwoBodiesReversed` | src/Microsoft.AspNetCore.Blazor.Razor.Extensions/ComponentLoweringPass.cs:52-67 | Two bodies come out after the attribute, in reverse lexical order. |
| `Scenarios.AmbiguousUsesFirst` | src/Microsoft.AspNetCore.Blazor.Razor.Extensions/ComponentLoweringPass.cs:29-34 | Two component descriptors: one MultipleComponents diagnostic, and the first descriptor's type is opened. |
| `Scenarios.OrdinaryFirstNotLowered` | src/Microsoft.AspNetCore.Blazor.Razor.Extensions/ComponentLoweringPass.cs:29-43 | An ordinary tag helper bound first and a component second: the children are unchanged and the only diagnostic is MultipleComponents. |

Behaviour of `ComponentLoweringPass.cs` a reader might not expect:

- No empty `ComponentBody` is added when a usage has no body: the body loop at lines
  52-67 only converts bodies that exist (`EmptyUsageGetsNoBody`).
- A second run of the pass is not a no-op. The kind test at line 40 still matches, so
  another open/close pair is inserted (`SecondRewriteWrapsAgain`).
- Several tag-helper bodies each become a component body. The loop at lines 52-67 scans
  from the last child down and appends each body as found, so they come out in reverse
  lexical order (`TwoBodiesReversed`).
- `MultipleComponents` is recorded whenever a usage has more than one descriptor, even
  when none of them is a component: the test at line 29 counts descriptors and ignores
  their kinds (`AmbiguityReportedOnce`).

## Left out

- Locating the primary namespace, the primary class and the tag-helper usages is done by
  tree searches that are not part of this model. The document is reduced to two booleans
  and the sequence of usages in search order. Each usage's child list is modelled on its
  own, so nested usages that share nodes through the descendant search are not modelled.
- `GetTypeName`, `GetPropertyName` and the value of the component kind constant come from
  code that is not part of this model. They are modelled as the descriptor's `typeName`
  field, the bound attribute's `propertyName` field, and the `ComponentKind` variant.
- Descriptor identity (`propertyNode.TagHelper == tagHelper`, a reference comparison) is
  modelled as value equality of descriptors. Descriptors are distinguished by their name, kind and type name.
- Diagnostic message text and source spans are owned by the diagnostic factory, which is
  not part of this model. Diagnostics keep only their kind and the nodes they report.
- The `TagMode`/`TagName` copied onto a component body are modelled. Other payload of the
  extension nodes (the wrapped original node object) is reduced to its children.
- `ExecuteCore` requires every usage to have at least one descriptor when the namespace
  and class exist. The source indexes `TagHelpers[0]` and would throw on an empty list.
- The browser end-to-end test, the mono sanity sample and the todo sample are context
  code. They do UI automation, JS interop, random numbers and hard-coded demo data, and
  hold no logic of the pass.
