/**
 The per-usage rewrite: insert the open node, move every tag-helper body to the
 end as a component body, append the close node, then scan the children from
 the last one down twice, once to lower or reject the properties bound to the
 chosen descriptor and once to reject unbound HTML attributes.

 Each scan is a method with a reverse-index loop over `seq<Node>`; the loop
 invariant says the processed suffix `children[i + 1..]` has been replaced by
 what the scan makes of it, written as a recursive function over that suffix.
 `StepsCompose` then shows that the scans together yield the shape defined in
 `ComponentShape`.
 */
module UsageRewriter {
  import opened IR
  import opened ComponentShape

  // ---------------------------------------------------------------------------
  // What each scan makes of a (processed) suffix of the children
  // ---------------------------------------------------------------------------

  function WithoutBodies(s: seq<Node>): seq<Node> {
    if s == [] then [] else (if IsBody(s[0]) then [] else [s[0]]) + WithoutBodies(s[1..])
  }

  /** Component bodies in the order the body scan appends them: last body first. */
  function RelocatedBodies(mode: TagMode, tagName: string, s: seq<Node>): seq<Node> {
    if s == [] then []
    else RelocatedBodies(mode, tagName, s[1..])
         + (if IsBody(s[0]) then [ComponentBody(mode, tagName, s[0].children)] else [])
  }

  /** What the property scan leaves in place of one child. */
  function LowerChild(d: Descriptor, n: Node): seq<Node> {
    if IsBoundTo(d, n) then
      (if IsComplex(n) then [] else [ComponentAttribute(n.boundAttribute.propertyName, n.children)])
    else [n]
  }

  /** The diagnostic the property scan records for one child, if any. */
  function ComplexDiagnostic(d: Descriptor, n: Node): seq<Diagnostic> {
    if IsBoundTo(d, n) && IsComplex(n) then [UnsupportedComplexContent(n, ComplexContent(n).value)] else []
  }

  function LowerProperties(d: Descriptor, s: seq<Node>): seq<Node> {
    if s == [] then [] else LowerChild(d, s[0]) + LowerProperties(d, s[1..])
  }

  function ComplexDiagnostics(d: Descriptor, s: seq<Node>): seq<Diagnostic> {
    if s == [] then [] else ComplexDiagnostics(d, s[1..]) + ComplexDiagnostic(d, s[0])
  }

  function WithoutUnbound(s: seq<Node>): seq<Node> {
    if s == [] then [] else (if IsUnboundAttribute(s[0]) then [] else [s[0]]) + WithoutUnbound(s[1..])
  }

  function UnboundDiagnostics(typeName: string, s: seq<Node>): seq<Diagnostic> {
    if s == [] then []
    else UnboundDiagnostics(typeName, s[1..])
         + (if IsUnboundAttribute(s[0]) then [UnboundComponentAttribute(typeName, s[0])] else [])
  }

  /** One iteration of each scan at index `i`: when the children before the
      iteration are the untouched prefix `s[..i + 1]` followed by what the scan made
      of `s[i + 1..]`, the iteration's edit leaves `s[..i]` followed by what the
      scan makes of `s[i..]`. */
  lemma BodyScanIteration(mode: TagMode, tagName: string, s: seq<Node>, i: nat, r: seq<Node>)
    requires i < |s|
    requires r == s[..i + 1] + (WithoutBodies(s[i + 1..]) + RelocatedBodies(mode, tagName, s[i + 1..]))
    ensures r[i] == s[i]
    ensures IsBody(s[i]) ==> r[..i] + r[i + 1..] + [ComponentBody(mode, tagName, s[i].children)]
                             == s[..i] + (WithoutBodies(s[i..]) + RelocatedBodies(mode, tagName, s[i..]))
    ensures !IsBody(s[i]) ==> r == s[..i] + (WithoutBodies(s[i..]) + RelocatedBodies(mode, tagName, s[i..]))
  {
    var rest := s[i + 1..];
    var done := WithoutBodies(rest) + RelocatedBodies(mode, tagName, rest);
    assert s[i..] == [s[i]] + rest;
    assert s[..i + 1] == s[..i] + [s[i]];
    assert r == s[..i] + [s[i]] + done;
    assert r[..i] == s[..i];
    assert r[i + 1..] == done;
    if IsBody(s[i]) {
      var body := ComponentBody(mode, tagName, s[i].children);
      assert WithoutBodies(s[i..]) == WithoutBodies(rest);
      assert RelocatedBodies(mode, tagName, s[i..]) == RelocatedBodies(mode, tagName, rest) + [body];
    } else {
      assert WithoutBodies(s[i..]) == [s[i]] + WithoutBodies(rest);
      assert RelocatedBodies(mode, tagName, s[i..]) == RelocatedBodies(mode, tagName, rest);
    }
  }

  lemma PropertyScanIteration(d: Descriptor, s: seq<Node>, i: nat, r: seq<Node>)
    requires i < |s|
    requires r == s[..i + 1] + LowerProperties(d, s[i + 1..])
    ensures r[i] == s[i]
    ensures IsBoundTo(d, s[i]) && IsComplex(s[i]) ==>
      && r[..i] + r[i + 1..] == s[..i] + LowerProperties(d, s[i..])
      && ComplexDiagnostics(d, s[i..])
         == ComplexDiagnostics(d, s[i + 1..]) + [UnsupportedComplexContent(s[i], ComplexContent(s[i]).value)]
    ensures IsBoundTo(d, s[i]) && !IsComplex(s[i]) ==>
      && r[i := ComponentAttribute(s[i].boundAttribute.propertyName, s[i].children)]
         == s[..i] + LowerProperties(d, s[i..])
      && ComplexDiagnostics(d, s[i..]) == ComplexDiagnostics(d, s[i + 1..])
    ensures !IsBoundTo(d, s[i]) ==>
      && r == s[..i] + LowerProperties(d, s[i..])
      && ComplexDiagnostics(d, s[i..]) == ComplexDiagnostics(d, s[i + 1..])
  {
    assert s[i..][0] == s[i];
    assert s[i..][1..] == s[i + 1..];
    assert s[..i + 1] == s[..i] + [s[i]];
    var done := LowerProperties(d, s[i + 1..]);
    assert r[..i] == s[..i];
    assert r[i + 1..] == done;
    if IsBoundTo(d, s[i]) && !IsComplex(s[i]) {
      var attribute := ComponentAttribute(s[i].boundAttribute.propertyName, s[i].children);
      assert r[i := attribute] == s[..i] + [attribute] + done;
    }
  }

  lemma UnboundScanIteration(typeName: string, s: seq<Node>, i: nat, r: seq<Node>)
    requires i < |s|
    requires r == s[..i + 1] + WithoutUnbound(s[i + 1..])
    ensures r[i] == s[i]
    ensures IsUnboundAttribute(s[i]) ==>
      && r[..i] + r[i + 1..] == s[..i] + WithoutUnbound(s[i..])
      && UnboundDiagnostics(typeName, s[i..])
         == UnboundDiagnostics(typeName, s[i + 1..]) + [UnboundComponentAttribute(typeName, s[i])]
    ensures !IsUnboundAttribute(s[i]) ==>
      && r == s[..i] + WithoutUnbound(s[i..])
      && UnboundDiagnostics(typeName, s[i..]) == UnboundDiagnostics(typeName, s[i + 1..])
  {
    assert s[i..][0] == s[i];
    assert s[i..][1..] == s[i + 1..];
    assert s[..i + 1] == s[..i] + [s[i]];
    assert r[..i] == s[..i];
    assert r[i + 1..] == WithoutUnbound(s[i + 1..]);
  }

  // ---------------------------------------------------------------------------
  // The three scans
  // ---------------------------------------------------------------------------

  /** Body scan: from the last child down, each tag-helper body is removed and a component
      body carrying its content, the usage's tag mode and tag name is appended. */
  method RelocateBodies(mode: TagMode, tagName: string, children: seq<Node>) returns (r: seq<Node>)
    ensures r == WithoutBodies(children) + RelocatedBodies(mode, tagName, children)
  {
    r := children;
    var i := |children| - 1;
    while i >= 0
      invariant -1 <= i < |children|
      invariant r == children[..i + 1] + (WithoutBodies(children[i + 1..])
                     + RelocatedBodies(mode, tagName, children[i + 1..]))
    {
      BodyScanIteration(mode, tagName, children, i, r);
      if r[i].TagHelperBody? {
        var body := r[i];
        r := r[..i] + r[i + 1..];
        r := r + [ComponentBody(mode, tagName, body.children)];
      }
      i := i - 1;
    }
    assert children[0..] == children;
  }

  /** Property scan: from the last child down, each property bound to `d` is either
      removed with an UnsupportedComplexContent diagnostic (the three complex cases,
      tested in the order the pass tests them) or replaced in place by a component
      attribute for the bound attribute's property. */
  method LowerBoundProperties(d: Descriptor, children: seq<Node>, diagnostics: seq<Diagnostic>)
    returns (r: seq<Node>, ds: seq<Diagnostic>)
    ensures r == LowerProperties(d, children)
    ensures ds == diagnostics + ComplexDiagnostics(d, children)
  {
    r := children;
    ds := diagnostics;
    var i := |children| - 1;
    while i >= 0
      invariant -1 <= i < |children|
      invariant r == children[..i + 1] + LowerProperties(d, children[i + 1..])
      invariant ds == diagnostics + ComplexDiagnostics(d, children[i + 1..])
    {
      PropertyScanIteration(d, children, i, r);
      if r[i].TagHelperProperty? && r[i].tagHelper == d {
        var property := r[i];
        var cs := property.children;
        if |cs| == 1 && cs[0].HtmlAttribute? && |cs[0].children| > 1 {
          ds := ds + [UnsupportedComplexContent(property, cs[0].children)];
          r := r[..i] + r[i + 1..];
        } else if |cs| == 1 && cs[0].CSharpExpression? && |cs[0].children| > 1 {
          ds := ds + [UnsupportedComplexContent(property, cs[0].children)];
          r := r[..i] + r[i + 1..];
        } else if |cs| > 1 {
          ds := ds + [UnsupportedComplexContent(property, cs)];
          r := r[..i] + r[i + 1..];
        } else {
          r := r[i := ComponentAttribute(property.boundAttribute.propertyName, property.children)];
        }
      }
      i := i - 1;
    }
    assert children[0..] == children;
  }

  /** Unbound-attribute scan: from the last child down, each unbound HTML attribute is
      removed with an UnboundComponentAttribute diagnostic naming the component type. */
  method PruneUnboundAttributes(typeName: string, children: seq<Node>, diagnostics: seq<Diagnostic>)
    returns (r: seq<Node>, ds: seq<Diagnostic>)
    ensures r == WithoutUnbound(children)
    ensures ds == diagnostics + UnboundDiagnostics(typeName, children)
  {
    r := children;
    ds := diagnostics;
    var i := |children| - 1;
    while i >= 0
      invariant -1 <= i < |children|
      invariant r == children[..i + 1] + WithoutUnbound(children[i + 1..])
      invariant ds == diagnostics + UnboundDiagnostics(typeName, children[i + 1..])
    {
      UnboundScanIteration(typeName, children, i, r);
      if r[i].TagHelperHtmlAttribute? {
        ds := ds + [UnboundComponentAttribute(typeName, r[i])];
        r := r[..i] + r[i + 1..];
      }
      i := i - 1;
    }
    assert children[0..] == children;
  }

  /** The rewrite of one usage with the chosen descriptor `tagHelper`: nothing happens
      unless it is of the component kind; otherwise the children and diagnostics become
      the lowered shape of `ComponentShape` (open first, close last, bodies last before
      the close, nothing rejected left, one diagnostic per rejected node). */
  method RewriteUsage(u: Usage, tagHelper: Descriptor) returns (r: Usage)
    ensures r == Rewritten(u, tagHelper)
    ensures !IsComponent(tagHelper) ==> r == u
    ensures IsComponent(tagHelper) ==>
      && r.children[0] == ComponentOpen(tagHelper.typeName)
      && r.children[|r.children| - 1] == ComponentClose
      && (forall k :: 0 <= k < |r.children| ==>
            !IsBody(r.children[k]) && !IsUnboundAttribute(r.children[k]) && !IsBoundTo(tagHelper, r.children[k]))
      && |r.diagnostics| == |u.diagnostics| + CountComplex(tagHelper, u.children) + CountUnbound(u.children)
  {
    if tagHelper.kind != ComponentKind {
      return u;
    }
    var withOpen := [ComponentOpen(tagHelper.typeName)] + u.children;
    var relocated := RelocateBodies(u.tagMode, u.tagName, withOpen);
    var closed := relocated + [ComponentClose];
    var lowered, reported := LowerBoundProperties(tagHelper, closed, u.diagnostics);
    var pruned, diagnostics := PruneUnboundAttributes(tagHelper.typeName, lowered, reported);
    StepsCompose(tagHelper, u.tagMode, u.tagName, u.children);
    r := u.(children := pruned, diagnostics := diagnostics);
    RewrittenShape(u, tagHelper);
  }

  // ---------------------------------------------------------------------------
  // The scans compose to the lowered shape
  // ---------------------------------------------------------------------------

  lemma {:induction false} ReverseAppend<T>(a: seq<T>, b: seq<T>)
    ensures Reverse(a + b) == Reverse(b) + Reverse(a)
  {
    if a == [] {
      assert a + b == b;
    } else {
      assert (a + b)[0] == a[0];
      assert (a + b)[1..] == a[1..] + b;
      ReverseAppend(a[1..], b);
    }
  }

  lemma {:induction false} RelocatedBodiesReversed(mode: TagMode, tagName: string, s: seq<Node>)
    ensures RelocatedBodies(mode, tagName, s) == Reverse(BodiesInOrder(mode, tagName, s))
  {
    if s != [] {
      RelocatedBodiesReversed(mode, tagName, s[1..]);
      var head := if IsBody(s[0]) then [ComponentBody(mode, tagName, s[0].children)] else [];
      ReverseAppend(head, BodiesInOrder(mode, tagName, s[1..]));
      assert Reverse(head) == head;
    }
  }

  lemma {:induction false} LowerPropertiesAppend(d: Descriptor, a: seq<Node>, b: seq<Node>)
    ensures LowerProperties(d, a + b) == LowerProperties(d, a) + LowerProperties(d, b)
    ensures ComplexDiagnostics(d, a + b) == ComplexDiagnostics(d, b) + ComplexDiagnostics(d, a)
  {
    if a == [] {
      assert a + b == b;
    } else {
      assert (a + b)[0] == a[0];
      assert (a + b)[1..] == a[1..] + b;
      LowerPropertiesAppend(d, a[1..], b);
    }
  }

  lemma {:induction false} LowerPropertiesIdle(d: Descriptor, s: seq<Node>)
    requires forall k :: 0 <= k < |s| ==> !s[k].TagHelperProperty?
    ensures LowerProperties(d, s) == s && ComplexDiagnostics(d, s) == []
  {
    if s != [] {
      LowerPropertiesIdle(d, s[1..]);
    }
  }

  lemma {:induction false} WithoutUnboundAppend(typeName: string, a: seq<Node>, b: seq<Node>)
    ensures WithoutUnbound(a + b) == WithoutUnbound(a) + WithoutUnbound(b)
    ensures UnboundDiagnostics(typeName, a + b) == UnboundDiagnostics(typeName, b) + UnboundDiagnostics(typeName, a)
  {
    if a == [] {
      assert a + b == b;
    } else {
      assert (a + b)[0] == a[0];
      assert (a + b)[1..] == a[1..] + b;
      WithoutUnboundAppend(typeName, a[1..], b);
    }
  }

  lemma {:induction false} WithoutUnboundIdle(typeName: string, s: seq<Node>)
    requires forall k :: 0 <= k < |s| ==> !IsUnboundAttribute(s[k])
    ensures WithoutUnbound(s) == s && UnboundDiagnostics(typeName, s) == []
  {
    if s != [] {
      WithoutUnboundIdle(typeName, s[1..]);
    }
  }

  /** The property and unbound-attribute scans over the body-free children yield the
      kept children and the reversed diagnostics of `ComponentShape`. */
  lemma {:induction false} MiddleLowered(d: Descriptor, s: seq<Node>)
    ensures WithoutUnbound(LowerProperties(d, WithoutBodies(s))) == Kept(d, s)
    ensures ComplexDiagnostics(d, WithoutBodies(s)) == Reverse(ComplexInOrder(d, s))
    ensures UnboundDiagnostics(d.typeName, LowerProperties(d, WithoutBodies(s)))
            == Reverse(UnboundInOrder(d.typeName, s))
  {
    if s != [] {
      var x := s[0];
      var tail := WithoutBodies(s[1..]);
      var head := if IsBody(x) then [] else [x];
      MiddleLowered(d, s[1..]);
      LowerPropertiesAppend(d, head, tail);
      var lowered := LowerProperties(d, head);
      WithoutUnboundAppend(d.typeName, lowered, LowerProperties(d, tail));
      var complexHead := if IsBoundTo(d, x) && IsComplex(x)
        then [UnsupportedComplexContent(x, ComplexContent(x).value)] else [];
      var unboundHead := if IsUnboundAttribute(x) then [UnboundComponentAttribute(d.typeName, x)] else [];
      ReverseAppend(complexHead, ComplexInOrder(d, s[1..]));
      ReverseAppend(unboundHead, UnboundInOrder(d.typeName, s[1..]));
      assert Reverse(complexHead) == complexHead;
      assert Reverse(unboundHead) == unboundHead;
      if !IsBody(x) {
        assert LowerProperties(d, head) == LowerChild(d, x) by {
          assert head[1..] == [];
        }
        assert ComplexDiagnostics(d, head) == ComplexDiagnostic(d, x) by {
          assert head[1..] == [];
        }
        var image := LowerChild(d, x);
        if image != [] {
          assert image[1..] == [];
        }
      }
    }
  }

  lemma BodyScanAfterOpen(d: Descriptor, mode: TagMode, tagName: string, s: seq<Node>)
    ensures var withOpen := [ComponentOpen(d.typeName)] + s;
      && WithoutBodies(withOpen) == [ComponentOpen(d.typeName)] + WithoutBodies(s)
      && RelocatedBodies(mode, tagName, withOpen) == Reverse(BodiesInOrder(mode, tagName, s))
  {
    var withOpen := [ComponentOpen(d.typeName)] + s;
    assert withOpen[0] == ComponentOpen(d.typeName);
    assert withOpen[1..] == s;
    RelocatedBodiesReversed(mode, tagName, s);
  }

  /** The property scan leaves the open node, the component bodies and the close node alone. */
  lemma PropertyScanFrame(d: Descriptor, open: seq<Node>, middle: seq<Node>, bodies: seq<Node>, close: seq<Node>)
    requires forall k :: 0 <= k < |open| ==> !open[k].TagHelperProperty?
    requires forall k :: 0 <= k < |bodies| ==> !bodies[k].TagHelperProperty?
    requires forall k :: 0 <= k < |close| ==> !close[k].TagHelperProperty?
    ensures LowerProperties(d, open + middle + bodies + close) == open + LowerProperties(d, middle) + bodies + close
    ensures ComplexDiagnostics(d, open + middle + bodies + close) == ComplexDiagnostics(d, middle)
  {
    LowerPropertiesIdle(d, open);
    LowerPropertiesIdle(d, bodies);
    LowerPropertiesIdle(d, close);
    LowerPropertiesAppend(d, open, middle);
    LowerPropertiesAppend(d, open + middle, bodies);
    LowerPropertiesAppend(d, open + middle + bodies, close);
  }

  /** The unbound-attribute scan leaves the open node, the component bodies and the close node alone. */
  lemma UnboundScanFrame(typeName: string, open: seq<Node>, middle: seq<Node>, bodies: seq<Node>, close: seq<Node>)
    requires forall k :: 0 <= k < |open| ==> !IsUnboundAttribute(open[k])
    requires forall k :: 0 <= k < |bodies| ==> !IsUnboundAttribute(bodies[k])
    requires forall k :: 0 <= k < |close| ==> !IsUnboundAttribute(close[k])
    ensures WithoutUnbound(open + middle + bodies + close) == open + WithoutUnbound(middle) + bodies + close
    ensures UnboundDiagnostics(typeName, open + middle + bodies + close) == UnboundDiagnostics(typeName, middle)
  {
    WithoutUnboundIdle(typeName, open);
    WithoutUnboundIdle(typeName, bodies);
    WithoutUnboundIdle(typeName, close);
    WithoutUnboundAppend(typeName, open, middle);
    WithoutUnboundAppend(typeName, open + middle, bodies);
    WithoutUnboundAppend(typeName, open + middle + bodies, close);
  }

  /** Open insertion, the body scan, close insertion, the property scan and the
      unbound-attribute scan together produce the lowered children and diagnostics. */
  lemma StepsCompose(d: Descriptor, mode: TagMode, tagName: string, s: seq<Node>)
    ensures var withOpen := [ComponentOpen(d.typeName)] + s;
      var closed := WithoutBodies(withOpen) + RelocatedBodies(mode, tagName, withOpen) + [ComponentClose];
      var lowered := LowerProperties(d, closed);
      && WithoutUnbound(lowered) == LoweredChildren(d, mode, tagName, s)
      && ComplexDiagnostics(d, closed) == Reverse(ComplexInOrder(d, s))
      && UnboundDiagnostics(d.typeName, lowered) == Reverse(UnboundInOrder(d.typeName, s))
  {
    var open := [ComponentOpen(d.typeName)];
    var close := [ComponentClose];
    var middle := WithoutBodies(s);
    var bodies := Reverse(BodiesInOrder(mode, tagName, s));
    BodyScanAfterOpen(d, mode, tagName, s);
    PropertyScanFrame(d, open, middle, bodies, close);
    var lmiddle := LowerProperties(d, middle);
    UnboundScanFrame(d.typeName, open, lmiddle, bodies, close);
    MiddleLowered(d, s);
  }
}
