/**
 The shape a component usage has after lowering, defined in one pass over the
 original children (independently of the three loops of the rewrite), and the
 properties that shape has: open first, close last, bodies moved to the end,
 rejected nodes gone, everything else in its original order, and one diagnostic
 per rejected node.
 */
module ComponentShape {
  import opened IR

  function Reverse<T>(s: seq<T>): (r: seq<T>)
    ensures |r| == |s|
    ensures forall k :: 0 <= k < |s| ==> r[k] == s[|s| - 1 - k]
  {
    if s == [] then [] else Reverse(s[1..]) + [s[0]]
  }

  /** Whether an original child is still there (possibly lowered) after rewriting for `d`. */
  predicate Survives(d: Descriptor, n: Node) {
    !IsBody(n) && !IsUnboundAttribute(n) && !(IsBoundTo(d, n) && IsComplex(n))
  }

  /** The lowered form of a surviving child: a property bound to `d` becomes a component attribute. */
  function Lower(d: Descriptor, n: Node): Node {
    if IsBoundTo(d, n) then ComponentAttribute(n.boundAttribute.propertyName, n.children) else n
  }

  /** The surviving children, lowered, in their original order. */
  function Kept(d: Descriptor, s: seq<Node>): seq<Node> {
    if s == [] then []
    else (if Survives(d, s[0]) then [Lower(d, s[0])] else []) + Kept(d, s[1..])
  }

  function CountBodies(s: seq<Node>): nat {
    if s == [] then 0 else (if IsBody(s[0]) then 1 else 0) + CountBodies(s[1..])
  }

  function CountUnbound(s: seq<Node>): nat {
    if s == [] then 0 else (if IsUnboundAttribute(s[0]) then 1 else 0) + CountUnbound(s[1..])
  }

  function CountComplex(d: Descriptor, s: seq<Node>): nat {
    if s == [] then 0
    else (if IsBoundTo(d, s[0]) && IsComplex(s[0]) then 1 else 0) + CountComplex(d, s[1..])
  }

  function CountComponentBodies(s: seq<Node>): nat {
    if s == [] then 0 else (if s[0].ComponentBody? then 1 else 0) + CountComponentBodies(s[1..])
  }

  function CountMultiple(ds: seq<Diagnostic>): nat {
    if ds == [] then 0 else (if ds[0].MultipleComponents? then 1 else 0) + CountMultiple(ds[1..])
  }

  /** One component body per tag-helper body, in lexical order, carrying the body's content. */
  function BodiesInOrder(mode: TagMode, tagName: string, s: seq<Node>): (r: seq<Node>)
    ensures |r| == CountBodies(s)
    ensures forall k :: 0 <= k < |r| ==> r[k].ComponentBody? && r[k].tagMode == mode && r[k].tagName == tagName
  {
    if s == [] then []
    else (if IsBody(s[0]) then [ComponentBody(mode, tagName, s[0].children)] else [])
         + BodiesInOrder(mode, tagName, s[1..])
  }

  /** One UnsupportedComplexContent diagnostic per complex property bound to `d`, in lexical order. */
  function ComplexInOrder(d: Descriptor, s: seq<Node>): seq<Diagnostic> {
    if s == [] then []
    else (if IsBoundTo(d, s[0]) && IsComplex(s[0])
          then [UnsupportedComplexContent(s[0], ComplexContent(s[0]).value)] else [])
         + ComplexInOrder(d, s[1..])
  }

  /** One UnboundComponentAttribute diagnostic per unbound HTML attribute, in lexical order. */
  function UnboundInOrder(typeName: string, s: seq<Node>): seq<Diagnostic> {
    if s == [] then []
    else (if IsUnboundAttribute(s[0]) then [UnboundComponentAttribute(typeName, s[0])] else [])
         + UnboundInOrder(typeName, s[1..])
  }

  /** The children of a component usage after lowering with `d`. Bodies are found scanning
      from the last child down and each is appended as found, so they end up reversed. */
  function LoweredChildren(d: Descriptor, mode: TagMode, tagName: string, s: seq<Node>): seq<Node> {
    [ComponentOpen(d.typeName)] + Kept(d, s) + Reverse(BodiesInOrder(mode, tagName, s)) + [ComponentClose]
  }

  /** The diagnostics lowering with `d` adds; both scans run from the last child down. */
  function LoweredDiagnostics(d: Descriptor, s: seq<Node>): seq<Diagnostic> {
    Reverse(ComplexInOrder(d, s)) + Reverse(UnboundInOrder(d.typeName, s))
  }

  /** A usage rewritten with descriptor `d`: untouched unless `d` is of the component kind.
      The added diagnostics are `LoweredDiagnostics` (see `RewrittenDiagnostics`), written
      out left-associated here because that is how the two scans append them. */
  function Rewritten(u: Usage, d: Descriptor): Usage {
    if !IsComponent(d) then u
    else u.(children := LoweredChildren(d, u.tagMode, u.tagName, u.children),
            diagnostics := u.diagnostics + Reverse(ComplexInOrder(d, u.children))
                           + Reverse(UnboundInOrder(d.typeName, u.children)))
  }

  lemma RewrittenDiagnostics(u: Usage, d: Descriptor)
    requires IsComponent(d)
    ensures Rewritten(u, d).diagnostics == u.diagnostics + LoweredDiagnostics(d, u.children)
  {
  }

  // ---------------------------------------------------------------------------
  // Properties of the lowered shape
  // ---------------------------------------------------------------------------

  lemma {:induction false} KeptHasNoRejected(d: Descriptor, s: seq<Node>)
    ensures forall n :: n in Kept(d, s) ==> !IsBody(n) && !IsUnboundAttribute(n) && !IsBoundTo(d, n)
  {
    if s != [] {
      KeptHasNoRejected(d, s[1..]);
    }
  }

  /** Indexing into the four parts of a lowered child list. */
  lemma LoweredIndex(d: Descriptor, mode: TagMode, tagName: string, s: seq<Node>, k: nat)
    requires k < |LoweredChildren(d, mode, tagName, s)|
    ensures var r := LoweredChildren(d, mode, tagName, s);
      var kept := Kept(d, s);
      var bodies := Reverse(BodiesInOrder(mode, tagName, s));
      && |r| == |kept| + |bodies| + 2
      && (k == 0 ==> r[k] == ComponentOpen(d.typeName))
      && (1 <= k <= |kept| ==> r[k] == kept[k - 1])
      && (|kept| < k < |r| - 1 ==> r[k] == bodies[k - 1 - |kept|])
      && (k == |r| - 1 ==> r[k] == ComponentClose)
  {
  }

  /** Open comes first and close last, around the kept children and one component body
      per tag-helper body. */
  lemma LoweredEnds(d: Descriptor, mode: TagMode, tagName: string, s: seq<Node>)
    ensures |LoweredChildren(d, mode, tagName, s)| == |Kept(d, s)| + CountBodies(s) + 2
    ensures LoweredChildren(d, mode, tagName, s)[0] == ComponentOpen(d.typeName)
    ensures LoweredChildren(d, mode, tagName, s)[|LoweredChildren(d, mode, tagName, s)| - 1] == ComponentClose
  {
    var r := LoweredChildren(d, mode, tagName, s);
    LoweredIndex(d, mode, tagName, s, 0);
    LoweredIndex(d, mode, tagName, s, |r| - 1);
  }

  /** The component bodies fill the positions right before the close. */
  lemma BodiesBeforeClose(d: Descriptor, mode: TagMode, tagName: string, s: seq<Node>, k: int)
    requires |LoweredChildren(d, mode, tagName, s)| - 1 - CountBodies(s) <= k < |LoweredChildren(d, mode, tagName, s)| - 1
    ensures LoweredChildren(d, mode, tagName, s)[k].ComponentBody?
  {
    LoweredIndex(d, mode, tagName, s, k);
  }

  /** No tag-helper body, unbound HTML attribute or property bound to `d` is left. */
  lemma NothingRejectedLeft(d: Descriptor, mode: TagMode, tagName: string, s: seq<Node>, k: int)
    requires 0 <= k < |LoweredChildren(d, mode, tagName, s)|
    ensures var n := LoweredChildren(d, mode, tagName, s)[k];
      !IsBody(n) && !IsUnboundAttribute(n) && !IsBoundTo(d, n)
  {
    LoweredIndex(d, mode, tagName, s, k);
    var kept := Kept(d, s);
    if 1 <= k <= |kept| {
      KeptHasNoRejected(d, s);
      assert kept[k - 1] in kept;
    }
  }

  lemma {:induction false} CountComponentBodiesAppend(a: seq<Node>, b: seq<Node>)
    ensures CountComponentBodies(a + b) == CountComponentBodies(a) + CountComponentBodies(b)
  {
    if a != [] {
      assert (a + b)[0] == a[0];
      assert (a + b)[1..] == a[1..] + b;
      CountComponentBodiesAppend(a[1..], b);
    } else {
      assert a + b == b;
    }
  }

  lemma {:induction false} CountComponentBodiesAll(s: seq<Node>)
    requires forall k :: 0 <= k < |s| ==> s[k].ComponentBody?
    ensures CountComponentBodies(s) == |s|
  {
    if s != [] {
      CountComponentBodiesAll(s[1..]);
    }
  }

  lemma {:induction false} KeptKeepsComponentBodies(d: Descriptor, s: seq<Node>)
    ensures CountComponentBodies(Kept(d, s)) == CountComponentBodies(s)
  {
    if s != [] {
      var head := if Survives(d, s[0]) then [Lower(d, s[0])] else [];
      CountComponentBodiesAppend(head, Kept(d, s[1..]));
      KeptKeepsComponentBodies(d, s[1..]);
    }
  }

  /** Lowering creates exactly one component body per tag-helper body (none when there
      is no body) and keeps every component body already present. */
  lemma ComponentBodyCount(d: Descriptor, mode: TagMode, tagName: string, s: seq<Node>)
    ensures CountComponentBodies(LoweredChildren(d, mode, tagName, s))
            == CountComponentBodies(s) + CountBodies(s)
  {
    var kept := Kept(d, s);
    var bodies := Reverse(BodiesInOrder(mode, tagName, s));
    CountComponentBodiesAppend([ComponentOpen(d.typeName)], kept);
    CountComponentBodiesAppend([ComponentOpen(d.typeName)] + kept, bodies);
    CountComponentBodiesAppend([ComponentOpen(d.typeName)] + kept + bodies, [ComponentClose]);
    KeptKeepsComponentBodies(d, s);
    CountComponentBodiesAll(bodies);
  }

  /** A child the rewrite has no reason to touch: not a body, not an HTML attribute, not a
      property bound to `d`, and not one of the four component node kinds the rewrite emits. */
  predicate Untouched(d: Descriptor, n: Node) {
    && !IsBody(n) && !IsUnboundAttribute(n) && !IsBoundTo(d, n)
    && !n.ComponentOpen? && !n.ComponentClose? && !n.ComponentBody? && !n.ComponentAttribute?
  }

  function UntouchedOf(d: Descriptor, s: seq<Node>): seq<Node> {
    if s == [] then [] else (if Untouched(d, s[0]) then [s[0]] else []) + UntouchedOf(d, s[1..])
  }

  lemma {:induction false} UntouchedOfAppend(d: Descriptor, a: seq<Node>, b: seq<Node>)
    ensures UntouchedOf(d, a + b) == UntouchedOf(d, a) + UntouchedOf(d, b)
  {
    if a != [] {
      assert (a + b)[0] == a[0];
      assert (a + b)[1..] == a[1..] + b;
      UntouchedOfAppend(d, a[1..], b);
    } else {
      assert a + b == b;
    }
  }

  lemma {:induction false} UntouchedOfNone(d: Descriptor, s: seq<Node>)
    requires forall k :: 0 <= k < |s| ==> !Untouched(d, s[k])
    ensures UntouchedOf(d, s) == []
  {
    if s != [] {
      UntouchedOfNone(d, s[1..]);
    }
  }

  lemma {:induction false} KeptKeepsUntouched(d: Descriptor, s: seq<Node>)
    ensures UntouchedOf(d, Kept(d, s)) == UntouchedOf(d, s)
  {
    if s != [] {
      var head := if Survives(d, s[0]) then [Lower(d, s[0])] else [];
      UntouchedOfAppend(d, head, Kept(d, s[1..]));
      KeptKeepsUntouched(d, s[1..]);
      if Survives(d, s[0]) {
        assert UntouchedOf(d, head) == (if Untouched(d, s[0]) then [s[0]] else []) by {
          assert UntouchedOf(d, head) == (if Untouched(d, head[0]) then [head[0]] else []) + UntouchedOf(d, []);
        }
      }
    }
  }

  /** Nothing else changes: the children the rewrite has no reason to touch are all still
      there, unchanged and in their original relative order. */
  lemma UntouchedInOrder(d: Descriptor, mode: TagMode, tagName: string, s: seq<Node>)
    ensures UntouchedOf(d, LoweredChildren(d, mode, tagName, s)) == UntouchedOf(d, s)
  {
    var kept := Kept(d, s);
    var bodies := Reverse(BodiesInOrder(mode, tagName, s));
    var open := [ComponentOpen(d.typeName)];
    UntouchedOfAppend(d, open, kept);
    UntouchedOfAppend(d, open + kept, bodies);
    UntouchedOfAppend(d, open + kept + bodies, [ComponentClose]);
    UntouchedOfNone(d, open);
    UntouchedOfNone(d, bodies);
    UntouchedOfNone(d, [ComponentClose]);
    KeptKeepsUntouched(d, s);
  }

  lemma {:induction false} ComplexInOrderCount(d: Descriptor, s: seq<Node>)
    ensures |ComplexInOrder(d, s)| == CountComplex(d, s)
    ensures forall e :: e in ComplexInOrder(d, s) ==>
      e.UnsupportedComplexContent? && e.property in s && IsBoundTo(d, e.property)
      && ComplexContent(e.property) == Some(e.content)
  {
    if s != [] {
      ComplexInOrderCount(d, s[1..]);
    }
  }

  lemma {:induction false} UnboundInOrderCount(typeName: string, s: seq<Node>)
    ensures |UnboundInOrder(typeName, s)| == CountUnbound(s)
    ensures forall e :: e in UnboundInOrder(typeName, s) ==>
      e.UnboundComponentAttribute? && e.typeName == typeName && e.attribute in s
      && IsUnboundAttribute(e.attribute)
  {
    if s != [] {
      UnboundInOrderCount(typeName, s[1..]);
    }
  }

  lemma {:induction false} CountMultipleNone(ds: seq<Diagnostic>)
    requires forall k :: 0 <= k < |ds| ==> !ds[k].MultipleComponents?
    ensures CountMultiple(ds) == 0
  {
    if ds != [] {
      CountMultipleNone(ds[1..]);
    }
  }

  lemma {:induction false} CountMultipleAppend(a: seq<Diagnostic>, b: seq<Diagnostic>)
    ensures CountMultiple(a + b) == CountMultiple(a) + CountMultiple(b)
  {
    if a != [] {
      assert (a + b)[0] == a[0];
      assert (a + b)[1..] == a[1..] + b;
      CountMultipleAppend(a[1..], b);
    } else {
      assert a + b == b;
    }
  }

  lemma InReverse<T>(x: T, s: seq<T>)
    ensures x in Reverse(s) <==> x in s
  {
    if x in s {
      var k :| 0 <= k < |s| && s[k] == x;
      assert Reverse(s)[|s| - 1 - k] == x;
    }
    if x in Reverse(s) {
      var k :| 0 <= k < |s| && Reverse(s)[k] == x;
      assert s[|s| - 1 - k] == x;
    }
  }

  /** Lowering adds one diagnostic per complex bound property plus one per unbound HTML
      attribute, each naming a node of the original children, and never a
      multiple-components diagnostic. */
  lemma LoweredDiagnosticsAccount(d: Descriptor, s: seq<Node>)
    ensures |LoweredDiagnostics(d, s)| == CountComplex(d, s) + CountUnbound(s)
    ensures CountMultiple(LoweredDiagnostics(d, s)) == 0
    ensures forall e :: e in LoweredDiagnostics(d, s) ==>
      || (e.UnsupportedComplexContent? && e.property in s && IsBoundTo(d, e.property)
          && ComplexContent(e.property) == Some(e.content))
      || (e.UnboundComponentAttribute? && e.attribute in s && IsUnboundAttribute(e.attribute)
          && e.typeName == d.typeName)
  {
    ComplexInOrderCount(d, s);
    UnboundInOrderCount(d.typeName, s);
    var c := ComplexInOrder(d, s);
    var u := UnboundInOrder(d.typeName, s);
    var ds := LoweredDiagnostics(d, s);
    forall e | e in ds
      ensures || (e.UnsupportedComplexContent? && e.property in s && IsBoundTo(d, e.property)
                  && ComplexContent(e.property) == Some(e.content))
              || (e.UnboundComponentAttribute? && e.attribute in s && IsUnboundAttribute(e.attribute)
                  && e.typeName == d.typeName)
    {
      InReverse(e, c);
      InReverse(e, u);
    }
    forall k | 0 <= k < |ds|
      ensures !ds[k].MultipleComponents?
    {
      assert ds[k] in ds;
    }
    CountMultipleNone(ds);
  }

  lemma {:induction false} ComplexInOrderHas(d: Descriptor, s: seq<Node>, k: nat)
    requires k < |s| && IsBoundTo(d, s[k]) && IsComplex(s[k])
    ensures UnsupportedComplexContent(s[k], ComplexContent(s[k]).value) in ComplexInOrder(d, s)
  {
    if k > 0 {
      ComplexInOrderHas(d, s[1..], k - 1);
    }
  }

  lemma {:induction false} UnboundInOrderHas(typeName: string, s: seq<Node>, k: nat)
    requires k < |s| && IsUnboundAttribute(s[k])
    ensures UnboundComponentAttribute(typeName, s[k]) in UnboundInOrder(typeName, s)
  {
    if k > 0 {
      UnboundInOrderHas(typeName, s[1..], k - 1);
    }
  }

  lemma {:induction false} KeptHas(d: Descriptor, s: seq<Node>, k: nat)
    requires k < |s| && Survives(d, s[k])
    ensures Lower(d, s[k]) in Kept(d, s)
  {
    if k > 0 {
      KeptHas(d, s[1..], k - 1);
    }
  }

  /** The fate of a property bound to `d`: when complex it is reported by exactly the
      content the pass rejects it for; otherwise it becomes a component attribute
      setting the bound attribute's property, with the same content. */
  lemma PropertyFate(d: Descriptor, mode: TagMode, tagName: string, s: seq<Node>, k: nat)
    requires k < |s| && IsBoundTo(d, s[k])
    ensures IsComplex(s[k]) ==>
      UnsupportedComplexContent(s[k], ComplexContent(s[k]).value) in LoweredDiagnostics(d, s)
    ensures !IsComplex(s[k]) ==>
      ComponentAttribute(s[k].boundAttribute.propertyName, s[k].children) in LoweredChildren(d, mode, tagName, s)
  {
    if IsComplex(s[k]) {
      ComplexInOrderHas(d, s, k);
      InReverse(UnsupportedComplexContent(s[k], ComplexContent(s[k]).value), ComplexInOrder(d, s));
    } else {
      KeptHas(d, s, k);
    }
  }

  /** Every unbound HTML attribute is reported, naming the component's type. */
  lemma UnboundFate(d: Descriptor, s: seq<Node>, k: nat)
    requires k < |s| && IsUnboundAttribute(s[k])
    ensures UnboundComponentAttribute(d.typeName, s[k]) in LoweredDiagnostics(d, s)
  {
    UnboundInOrderHas(d.typeName, s, k);
    InReverse(UnboundComponentAttribute(d.typeName, s[k]), UnboundInOrder(d.typeName, s));
  }

  /** The shape of a usage rewritten with a component descriptor, in one statement. */
  lemma RewrittenShape(u: Usage, d: Descriptor)
    requires IsComponent(d)
    ensures var r := Rewritten(u, d);
      && |r.children| == |Kept(d, u.children)| + CountBodies(u.children) + 2
      && r.children[0] == ComponentOpen(d.typeName)
      && r.children[|r.children| - 1] == ComponentClose
      && (forall k :: 0 <= k < |r.children| ==>
            !IsBody(r.children[k]) && !IsUnboundAttribute(r.children[k]) && !IsBoundTo(d, r.children[k]))
      && CountComponentBodies(r.children) == CountComponentBodies(u.children) + CountBodies(u.children)
      && r.diagnostics[..|u.diagnostics|] == u.diagnostics
      && |r.diagnostics| == |u.diagnostics| + CountComplex(d, u.children) + CountUnbound(u.children)
  {
    LoweredEnds(d, u.tagMode, u.tagName, u.children);
    forall k | 0 <= k < |Rewritten(u, d).children|
      ensures !IsBody(Rewritten(u, d).children[k]) && !IsUnboundAttribute(Rewritten(u, d).children[k])
              && !IsBoundTo(d, Rewritten(u, d).children[k])
    {
      NothingRejectedLeft(d, u.tagMode, u.tagName, u.children, k);
    }
    ComponentBodyCount(d, u.tagMode, u.tagName, u.children);
    LoweredDiagnosticsAccount(d, u.children);
    RewrittenDiagnostics(u, d);
  }

  lemma {:induction false} AlreadyLoweredIsKept(d: Descriptor, mode: TagMode, tagName: string, s: seq<Node>)
    requires forall k :: 0 <= k < |s| ==> !IsBody(s[k]) && !IsUnboundAttribute(s[k]) && !IsBoundTo(d, s[k])
    ensures Kept(d, s) == s
    ensures BodiesInOrder(mode, tagName, s) == []
    ensures ComplexInOrder(d, s) == [] && UnboundInOrder(d.typeName, s) == []
  {
    if s != [] {
      AlreadyLoweredIsKept(d, mode, tagName, s[1..]);
    }
  }

  /** Rewriting an already rewritten usage again is not a no-op: since the descriptor is
      still of the component kind, a second open/close pair is wrapped around the
      children, and no further diagnostic is added. */
  lemma SecondRewriteWrapsAgain(u: Usage, d: Descriptor)
    requires IsComponent(d)
    ensures var once := Rewritten(u, d);
      && Rewritten(once, d).children == [ComponentOpen(d.typeName)] + once.children + [ComponentClose]
      && Rewritten(once, d).diagnostics == once.diagnostics
      && |Rewritten(once, d).children| == |once.children| + 2
  {
    var once := Rewritten(u, d);
    var r := once.children;
    RewrittenShape(u, d);
    AlreadyLoweredIsKept(d, u.tagMode, u.tagName, r);
    assert Reverse<Node>([]) == [];
    assert Reverse<Diagnostic>([]) == [];
  }
}
