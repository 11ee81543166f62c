/**
 The component lowering pass over a whole document: nothing happens unless the
 primary namespace and class exist; otherwise every tag-helper usage is visited
 in search order, an ambiguity is reported when several descriptors are bound,
 and the usage is rewritten with its first descriptor.
 */
module LoweringPass {
  import opened IR
  import opened ComponentShape
  import opened UsageRewriter

  predicate HasStandardStructure(doc: Document) {
    doc.hasPrimaryNamespace && doc.hasPrimaryClass
  }

  /** Every usage has a first descriptor to rewrite with. */
  predicate AllBound(doc: Document) {
    forall i :: 0 <= i < |doc.usages| ==> |doc.usages[i].tagHelpers| > 0
  }

  /** Usage `u` with the ambiguity diagnostic added when several descriptors are bound. */
  function ReportAmbiguity(u: Usage): Usage {
    if |u.tagHelpers| > 1
    then u.(diagnostics := u.diagnostics + [MultipleComponents(u.tagName, u.tagHelpers)])
    else u
  }

  /** What the pass makes of one usage. */
  function LowerUsage(u: Usage): Usage
    requires |u.tagHelpers| > 0
  {
    Rewritten(ReportAmbiguity(u), u.tagHelpers[0])
  }

  method ExecuteCore(doc: Document) returns (r: Document)
    requires HasStandardStructure(doc) ==> AllBound(doc)
    ensures !HasStandardStructure(doc) ==> r == doc
    ensures HasStandardStructure(doc) ==>
      && r.hasPrimaryNamespace && r.hasPrimaryClass
      && |r.usages| == |doc.usages|
      && (forall i :: 0 <= i < |r.usages| ==> r.usages[i] == LowerUsage(doc.usages[i]))
      && (forall i :: 0 <= i < |r.usages| ==>
            CountMultiple(r.usages[i].diagnostics)
            == CountMultiple(doc.usages[i].diagnostics) + (if |doc.usages[i].tagHelpers| > 1 then 1 else 0))
  {
    if !doc.hasPrimaryNamespace || !doc.hasPrimaryClass {
      return doc;
    }
    var usages := doc.usages;
    var i := 0;
    while i < |usages|
      invariant 0 <= i <= |usages| == |doc.usages|
      invariant forall j :: 0 <= j < i ==> usages[j] == LowerUsage(doc.usages[j])
      invariant forall j :: i <= j < |usages| ==> usages[j] == doc.usages[j]
    {
      var node := usages[i];
      if |node.tagHelpers| > 1 {
        node := node.(diagnostics := node.diagnostics + [MultipleComponents(node.tagName, node.tagHelpers)]);
      }
      node := RewriteUsage(node, node.tagHelpers[0]);
      usages := usages[i := node];
      i := i + 1;
    }
    r := doc.(usages := usages);
    forall j | 0 <= j < |r.usages|
      ensures CountMultiple(r.usages[j].diagnostics)
              == CountMultiple(doc.usages[j].diagnostics) + (if |doc.usages[j].tagHelpers| > 1 then 1 else 0)
    {
      AmbiguityReportedOnce(doc.usages[j]);
    }
  }

  // ---------------------------------------------------------------------------
  // Properties of one lowered usage
  // ---------------------------------------------------------------------------

  /** Exactly one multiple-components diagnostic is added when more than one descriptor
      is bound, none otherwise; earlier diagnostics are kept as they were. */
  lemma AmbiguityReportedOnce(u: Usage)
    requires |u.tagHelpers| > 0
    ensures CountMultiple(LowerUsage(u).diagnostics)
            == CountMultiple(u.diagnostics) + (if |u.tagHelpers| > 1 then 1 else 0)
    ensures LowerUsage(u).diagnostics[..|u.diagnostics|] == u.diagnostics
  {
    var reported := ReportAmbiguity(u);
    var d := u.tagHelpers[0];
    if |u.tagHelpers| > 1 {
      CountMultipleAppend(u.diagnostics, [MultipleComponents(u.tagName, u.tagHelpers)]);
    }
    if IsComponent(d) {
      RewrittenDiagnostics(reported, d);
      LoweredDiagnosticsAccount(d, u.children);
      CountMultipleAppend(reported.diagnostics, LoweredDiagnostics(d, u.children));
    }
  }

  /** A usage whose first descriptor is not of the component kind keeps its children;
      it only gains the ambiguity diagnostic, when it is ambiguous. */
  lemma NonComponentUntouched(u: Usage)
    requires |u.tagHelpers| > 0 && !IsComponent(u.tagHelpers[0])
    ensures LowerUsage(u).children == u.children
    ensures |u.tagHelpers| == 1 ==> LowerUsage(u) == u
  {
  }

  /** The diagnostics the pass adds to a usage: one for ambiguity, and, for a component,
      one per complex bound property and one per unbound HTML attribute. The tag name,
      tag mode and descriptor list never change. */
  lemma DiagnosticsAdded(u: Usage)
    requires |u.tagHelpers| > 0
    ensures var d := u.tagHelpers[0];
      |LowerUsage(u).diagnostics|
      == |u.diagnostics| + (if |u.tagHelpers| > 1 then 1 else 0)
         + (if IsComponent(d) then CountComplex(d, u.children) + CountUnbound(u.children) else 0)
    ensures LowerUsage(u).tagName == u.tagName && LowerUsage(u).tagMode == u.tagMode
    ensures LowerUsage(u).tagHelpers == u.tagHelpers
  {
    LoweredDiagnosticsAccount(u.tagHelpers[0], u.children);
  }

  /** An ambiguous usage is still lowered, with its first descriptor. */
  lemma AmbiguousStillLowered(u: Usage)
    requires |u.tagHelpers| > 1 && IsComponent(u.tagHelpers[0])
    ensures var r := LowerUsage(u).children;
      && r[0] == ComponentOpen(u.tagHelpers[0].typeName)
      && r[|r| - 1] == ComponentClose
      && (forall k :: 0 <= k < |r| ==> !IsBody(r[k]) && !IsUnboundAttribute(r[k]))
  {
    var d := u.tagHelpers[0];
    RewrittenShape(ReportAmbiguity(u), d);
  }
}
