/** Glyph arithmetic: glyph ± glyph point by point, glyph × or ÷ a factor, and the copies
    those operations start from. */
module GlyphMath {
  import opened Types
  import opened Pairing
  import opened Structure
  import opened Normalizer

  // ------------------------------------------------ glyph ± glyph

  /** The point function handed to the binary operation: addPt or subPt. */
  datatype BinaryOp = Plus | Minus

  function Combine(op: BinaryOp, a: real, b: real): real
  {
    match op
    case Plus => a + b
    case Minus => a - b
  }

  function CombinePt(op: BinaryOp, p: Pt, q: Pt): Pt
  {
    Pt(Combine(op, p.x, q.x), Combine(op, p.y, q.y))
  }

  /** Point-wise combination reads, for every point of the first glyph, the point with the same
      contour and point index in the second: it succeeds exactly when those all exist. */
  predicate CombinableContours(cs1: seq<Contour>, cs2: seq<Contour>)
  {
    |cs1| <= |cs2| && forall i :: 0 <= i < |cs1| ==> |cs1[i]| <= |cs2[i]|
  }

  /** Each point keeps the first contour's segment type, smooth flag and name and gets the
      combined coordinate of the two points at its index. */
  function CombineContour(op: BinaryOp, c1: Contour, c2: Contour): (r: Contour)
    requires |c1| <= |c2|
    ensures |r| == |c1|
    ensures forall j :: 0 <= j < |c1| ==> r[j] == c1[j].(pt := CombinePt(op, c1[j].pt, c2[j].pt))
  {
    if c1 == [] then []
    else [c1[0].(pt := CombinePt(op, c1[0].pt, c2[0].pt))] + CombineContour(op, c1[1..], c2[1..])
  }

  function CombineContours(op: BinaryOp, cs1: seq<Contour>, cs2: seq<Contour>): (r: seq<Contour>)
    requires CombinableContours(cs1, cs2)
    ensures |r| == |cs1|
    ensures forall i :: 0 <= i < |cs1| ==> r[i] == CombineContour(op, cs1[i], cs2[i])
  {
    if cs1 == [] then []
    else [CombineContour(op, cs1[0], cs2[0])] + CombineContours(op, cs1[1..], cs2[1..])
  }

  /** The contour part of the binary operation: one output contour per contour of the first
      glyph, filled point by point; an index past the end of the second glyph is an error. */
  method ProcessMathOneContours(op: BinaryOp, cs1: seq<Contour>, cs2: seq<Contour>)
    returns (r: Result<seq<Contour>, MathError>)
    ensures CombinableContours(cs1, cs2) ==> r == Ok(CombineContours(op, cs1, cs2))
    ensures !CombinableContours(cs1, cs2) ==> r == Err(IndexOutOfRange)
  {
    var contours: seq<Contour> := [];
    var contourIndex := 0;
    while contourIndex < |cs1|
      invariant 0 <= contourIndex <= |cs1|
      invariant contourIndex <= |cs2|
      invariant forall i :: 0 <= i < contourIndex ==> |cs1[i]| <= |cs2[i]|
      invariant |contours| == contourIndex
      invariant forall i :: 0 <= i < contourIndex ==> contours[i] == CombineContour(op, cs1[i], cs2[i])
    {
      if contourIndex >= |cs2| {
        return Err(IndexOutOfRange);
      }
      var contour := CombineContourLoop(op, cs1[contourIndex], cs2[contourIndex]);
      if contour.Err? {
        return Err(IndexOutOfRange);
      }
      contours := contours + [contour.value];
      contourIndex := contourIndex + 1;
    }
    assert contours == CombineContours(op, cs1, cs2);
    return Ok(contours);
  }

  /** One contour of the binary operation, point by point; a point index past the end of the
      second contour is an error. */
  method CombineContourLoop(op: BinaryOp, selfContour: Contour, otherContour: Contour)
    returns (r: Result<Contour, MathError>)
    ensures |selfContour| <= |otherContour| ==> r == Ok(CombineContour(op, selfContour, otherContour))
    ensures |selfContour| > |otherContour| ==> r == Err(IndexOutOfRange)
  {
    var contour: Contour := [];
    var pointIndex := 0;
    while pointIndex < |selfContour|
      invariant 0 <= pointIndex <= |selfContour|
      invariant pointIndex <= |otherContour|
      invariant |contour| == pointIndex
      invariant forall j :: 0 <= j < pointIndex ==>
        contour[j] == selfContour[j].(pt := CombinePt(op, selfContour[j].pt, otherContour[j].pt))
    {
      if pointIndex >= |otherContour| {
        return Err(IndexOutOfRange);
      }
      var point := selfContour[pointIndex];
      contour := contour + [point.(pt := CombinePt(op, point.pt, otherContour[pointIndex].pt))];
      pointIndex := pointIndex + 1;
    }
    assert contour == CombineContour(op, selfContour, otherContour);
    return Ok(contour);
  }

  /** Each anchor is the first anchor of its pair with the combined coordinates; its name,
      identifier and color are the first anchor's. */
  function CombineAnchors(op: BinaryOp, pairs: seq<(Anchor, Anchor)>): (r: seq<Anchor>)
    ensures |r| == |pairs|
    ensures forall k :: 0 <= k < |pairs| ==>
      r[k] == pairs[k].0.(x := Combine(op, pairs[k].0.x, pairs[k].1.x), y := Combine(op, pairs[k].0.y, pairs[k].1.y))
  {
    if pairs == [] then []
    else
      var (a1, a2) := pairs[0];
      [a1.(x := Combine(op, a1.x, a2.x), y := Combine(op, a1.y, a2.y))] + CombineAnchors(op, pairs[1..])
  }

  /** The six transformation values combined as the point pairs (xScale, yScale),
      (xyScale, yxScale) and (xOffset, yOffset). */
  function CombineTransform(op: BinaryOp, t1: Transform, t2: Transform): Transform
  {
    var scale := CombinePt(op, Pt(t1.xScale, t1.yScale), Pt(t2.xScale, t2.yScale));
    var skew := CombinePt(op, Pt(t1.xyScale, t1.yxScale), Pt(t2.xyScale, t2.yxScale));
    var offset := CombinePt(op, Pt(t1.xOffset, t1.yOffset), Pt(t2.xOffset, t2.yOffset));
    Transform(scale.x, skew.x, skew.y, scale.y, offset.x, offset.y)
  }

  /** Each component is the first component of its pair with the combined transformation;
      its base glyph and identifier are the first component's. */
  function CombineComponents(op: BinaryOp, pairs: seq<(Component, Component)>): (r: seq<Component>)
    ensures |r| == |pairs|
    ensures forall k :: 0 <= k < |pairs| ==>
      r[k] == pairs[k].0.(transformation := CombineTransform(op, pairs[k].0.transformation, pairs[k].1.transformation))
  {
    if pairs == [] then []
    else
      var (c1, c2) := pairs[0];
      [c1.(transformation := CombineTransform(op, c1.transformation, c2.transformation))]
        + CombineComponents(op, pairs[1..])
  }

  /** The anchor pairs of two glyphs: both anchor lists grouped by name, names taken in the
      order they first occur among the first glyph's anchors. */
  function AnchorPairsOf(g1: MathGlyph, g2: MathGlyph): seq<(Anchor, Anchor)>
  {
    PairAnchors(AnchorTreeOf(g1.anchors), AnchorTreeOf(g2.anchors), NameOrder(g1.anchors))
  }

  /** The copy the operations start from: everything but contours, components and anchors,
      one generation on. */
  function CopyWithoutIterables(g: MathGlyph): MathGlyph
  {
    g.(contours := [], components := [], anchors := [], generationCount := g.generationCount + 1)
  }

  /** glyph ± glyph. The first glyph's contours are combined point by point with the second's;
      its anchors and components with their partners in the second glyph (those without a
      partner are dropped); widths are combined. */
  function ProcessMathOne(op: BinaryOp, g1: MathGlyph, g2: MathGlyph): (r: Result<MathGlyph, MathError>)
    ensures r.Err? <==> !CombinableContours(g1.contours, g2.contours)
    ensures r.Err? ==> r.error == IndexOutOfRange
    ensures r.Ok? ==>
      && r.value.contours == CombineContours(op, g1.contours, g2.contours)
      && r.value.width == Combine(op, g1.width, g2.width)
      && r.value.generationCount == g1.generationCount + 1
      && r.value.name == g1.name && r.value.unicodes == g1.unicodes
      && r.value.note == g1.note && r.value.lib == g1.lib
      && r.value.anchors == (if |g1.anchors| > 0 then CombineAnchors(op, AnchorPairsOf(g1, g2)) else [])
      && r.value.components ==
           (if |g1.components| > 0 then CombineComponents(op, PairComponents(g1.components, g2.components)) else [])
  {
    if !CombinableContours(g1.contours, g2.contours) then Err(IndexOutOfRange)
    else
      var copied := CopyWithoutIterables(g1);
      var anchors := if |g1.anchors| > 0 then CombineAnchors(op, AnchorPairsOf(g1, g2)) else [];
      var components :=
        if |g1.components| > 0 then CombineComponents(op, PairComponents(g1.components, g2.components)) else [];
      Ok(copied.(contours := CombineContours(op, g1.contours, g2.contours), anchors := anchors,
                 components := components, width := Combine(op, g1.width, g2.width)))
  }

  /** The binary operation as the source runs it: copy, fill the contours point by point, build
      the anchor trees, pair, combine. */
  method ProcessMathOneMethod(op: BinaryOp, g1: MathGlyph, g2: MathGlyph) returns (r: Result<MathGlyph, MathError>)
    ensures r == ProcessMathOne(op, g1, g2)
  {
    var copied := CopyWithoutIterables(g1);
    var contours := ProcessMathOneContours(op, g1.contours, g2.contours);
    if contours.Err? {
      return Err(contours.error);
    }
    copied := copied.(contours := contours.value);
    if |g1.anchors| > 0 {
      var tree1 := BuildAnchorTree(g1.anchors);
      var tree2 := BuildAnchorTree(g2.anchors);
      var anchorPairs := PairAnchorsLoop(tree1, tree2, NameOrder(g1.anchors));
      copied := copied.(anchors := CombineAnchors(op, anchorPairs));
    }
    if |g1.components| > 0 {
      var componentPairs := PairComponentsLoop(g1.components, g2.components);
      copied := copied.(components := CombineComponents(op, componentPairs));
    }
    copied := copied.(width := Combine(op, g1.width, g2.width));
    return Ok(copied);
  }

  function Add(g1: MathGlyph, g2: MathGlyph): Result<MathGlyph, MathError>
  {
    ProcessMathOne(Plus, g1, g2)
  }

  function Sub(g1: MathGlyph, g2: MathGlyph): Result<MathGlyph, MathError>
  {
    ProcessMathOne(Minus, g1, g2)
  }

  /** Contour compatibility, the test the operations rely on without making it, is enough for
      them to succeed, and the result has the first operand's contour structure. */
  lemma ProcessMathOneCompatible(op: BinaryOp, g1: MathGlyph, g2: MathGlyph)
    requires IsCompatible(g1, g2, true, false, false)
    ensures ProcessMathOne(op, g1, g2).Ok?
    ensures IsCompatible(ProcessMathOne(op, g1, g2).value, g1, true, false, false)
  {
    ContourCompatibleIff(g1, g2);
    var r := ProcessMathOne(op, g1, g2).value;
    forall i, j | 0 <= i < |r.contours| && 0 <= j < |r.contours[i]|
      ensures r.contours[i][j].seg == g1.contours[i][j].seg
    {
    }
    ContourCompatibleIff(r, g1);
  }

  /** Every anchor of a sum or difference is an anchor of the first glyph moved by its partner:
      the name, identifier and color stay the first glyph's, and the partner has the same name. */
  lemma ProcessMathOneAnchors(op: BinaryOp, g1: MathGlyph, g2: MathGlyph)
    requires ProcessMathOne(op, g1, g2).Ok?
    ensures forall k :: 0 <= k < |ProcessMathOne(op, g1, g2).value.anchors| ==>
      MovedAnchor(op, ProcessMathOne(op, g1, g2).value.anchors[k], g1.anchors, g2.anchors)
  {
    if |g1.anchors| > 0 {
      PairAnchorsFrom(g1.anchors, g2.anchors, NameOrder(g1.anchors));
      CombineAnchorsFrom(op, AnchorPairsOf(g1, g2), g1.anchors, g2.anchors);
    }
  }

  lemma CombineAnchorsFrom(op: BinaryOp, pairs: seq<(Anchor, Anchor)>, anchors1: seq<Anchor>, anchors2: seq<Anchor>)
    requires AllFrom(pairs, anchors1, anchors2)
    ensures forall k :: 0 <= k < |pairs| ==> MovedAnchor(op, CombineAnchors(op, pairs)[k], anchors1, anchors2)
  {
    forall k | 0 <= k < |pairs|
      ensures MovedAnchor(op, CombineAnchors(op, pairs)[k], anchors1, anchors2)
    {
      assert PairFrom(pairs[k], anchors1, anchors2);
      var a1, a2 := pairs[k].0, pairs[k].1;
      assert CombineAnchors(op, pairs)[k] == a1.(x := Combine(op, a1.x, a2.x), y := Combine(op, a1.y, a2.y));
    }
  }

  /** An anchor of the first list moved by a partner with the same name from the second. */
  predicate MovedAnchor(op: BinaryOp, b: Anchor, anchors1: seq<Anchor>, anchors2: seq<Anchor>)
  {
    exists a1, a2 :: (a1 in anchors1 && a2 in anchors2 && a1.name == a2.name &&
      b == a1.(x := Combine(op, a1.x, a2.x), y := Combine(op, a1.y, a2.y)))
  }

  /** Every component of a sum or difference is a component of the first glyph whose
      transformation is combined with that of a component of the second glyph with the same
      base glyph. */
  lemma ProcessMathOneComponents(op: BinaryOp, g1: MathGlyph, g2: MathGlyph)
    requires ProcessMathOne(op, g1, g2).Ok?
    ensures forall k :: 0 <= k < |ProcessMathOne(op, g1, g2).value.components| ==>
      MovedComponent(op, ProcessMathOne(op, g1, g2).value.components[k], g1.components, g2.components)
  {
    if |g1.components| > 0 {
      PairComponentsFrom(g1.components, g2.components);
      CombineComponentsFrom(op, PairComponents(g1.components, g2.components), g1.components, g2.components);
    }
  }

  lemma CombineComponentsFrom(op: BinaryOp, pairs: seq<(Component, Component)>, c1: seq<Component>, c2: seq<Component>)
    requires forall k :: 0 <= k < |pairs| ==> pairs[k].0 in c1 && pairs[k].1 in c2 && pairs[k].0.baseGlyph == pairs[k].1.baseGlyph
    ensures forall k :: 0 <= k < |pairs| ==> MovedComponent(op, CombineComponents(op, pairs)[k], c1, c2)
  {
    forall k | 0 <= k < |pairs|
      ensures MovedComponent(op, CombineComponents(op, pairs)[k], c1, c2)
    {
      var a, b := pairs[k].0, pairs[k].1;
      assert CombineComponents(op, pairs)[k] == a.(transformation := CombineTransform(op, a.transformation, b.transformation));
    }
  }

  /** A component of the first list whose transformation is combined with that of a component
      of the second list with the same base glyph. */
  predicate MovedComponent(op: BinaryOp, d: Component, c1: seq<Component>, c2: seq<Component>)
  {
    exists a, b :: (a in c1 && b in c2 && a.baseGlyph == b.baseGlyph &&
      d == a.(transformation := CombineTransform(op, a.transformation, b.transformation)))
  }

  /** Subtracting what was added gives back the first glyph's contours and width. */
  lemma SubUndoesAdd(g1: MathGlyph, g2: MathGlyph)
    requires Add(g1, g2).Ok?
    ensures Sub(Add(g1, g2).value, g2).Ok?
    ensures Sub(Add(g1, g2).value, g2).value.contours == g1.contours
    ensures Sub(Add(g1, g2).value, g2).value.width == g1.width
  {
    var s := Add(g1, g2).value;
    SubOfSum(s, g1, g2);
  }

  /** Subtracting g2 from a glyph whose contours and width are those of g1 + g2. */
  lemma SubOfSum(s: MathGlyph, g1: MathGlyph, g2: MathGlyph)
    requires CombinableContours(g1.contours, g2.contours)
    requires s.contours == CombineContours(Plus, g1.contours, g2.contours)
    requires s.width == Combine(Plus, g1.width, g2.width)
    ensures Sub(s, g2).Ok?
    ensures Sub(s, g2).value.contours == g1.contours
    ensures Sub(s, g2).value.width == g1.width
  {
    ContoursSubUndoesAdd(g1.contours, g2.contours);
  }

  lemma ContoursSubUndoesAdd(cs1: seq<Contour>, cs2: seq<Contour>)
    requires CombinableContours(cs1, cs2)
    ensures CombinableContours(CombineContours(Plus, cs1, cs2), cs2)
    ensures CombineContours(Minus, CombineContours(Plus, cs1, cs2), cs2) == cs1
  {
    var cs := CombineContours(Plus, cs1, cs2);
    assert CombinableContours(cs, cs2);
    var back := CombineContours(Minus, cs, cs2);
    forall i | 0 <= i < |cs1|
      ensures back[i] == cs1[i]
    {
      ContourSubUndoesAdd(cs1[i], cs2[i]);
    }
  }

  lemma ContourSubUndoesAdd(c1: Contour, c2: Contour)
    requires |c1| <= |c2|
    ensures CombineContour(Minus, CombineContour(Plus, c1, c2), c2) == c1
  {
    var back := CombineContour(Minus, CombineContour(Plus, c1, c2), c2);
    forall j | 0 <= j < |c1|
      ensures back[j] == c1[j]
    {
    }
  }

  // ------------------------------------------------ glyph × factor, glyph ÷ factor

  /** The point function handed to the scalar operation: mulPt or divPt. */
  datatype ScaleOp = Times | Over

  /** A factor as the caller passes it: one number for both axes, or an (x, y) pair. */
  datatype FactorArg = Scalar(f: real) | FactorPair(fx: real, fy: real)

  function XFactor(f: FactorArg): real
  {
    match f
    case Scalar(v) => v
    case FactorPair(fx, _) => fx
  }

  function YFactor(f: FactorArg): real
  {
    match f
    case Scalar(v) => v
    case FactorPair(_, fy) => fy
  }

  /** Multiplication always succeeds; division needs both factors nonzero. */
  predicate CanScale(op: ScaleOp, fx: real, fy: real)
  {
    op == Times || (fx != 0.0 && fy != 0.0)
  }

  function Scale(op: ScaleOp, a: real, f: real): real
    requires op == Over ==> f != 0.0
  {
    match op
    case Times => a * f
    case Over => a / f
  }

  /** mulPt and divPt: x by the x factor, y by the y factor. */
  function ScalePt(op: ScaleOp, p: Pt, fx: real, fy: real): Pt
    requires CanScale(op, fx, fy)
  {
    Pt(Scale(op, p.x, fx), Scale(op, p.y, fy))
  }

  predicate HasPoint(cs: seq<Contour>)
  {
    exists i :: 0 <= i < |cs| && cs[i] != []
  }

  function ScaleContour(op: ScaleOp, c: Contour, fx: real, fy: real): (r: Contour)
    requires c != [] ==> CanScale(op, fx, fy)
    ensures |r| == |c|
    ensures forall j :: 0 <= j < |c| ==> r[j] == c[j].(pt := ScalePt(op, c[j].pt, fx, fy))
  {
    if c == [] then [] else [c[0].(pt := ScalePt(op, c[0].pt, fx, fy))] + ScaleContour(op, c[1..], fx, fy)
  }

  function ScaleContours(op: ScaleOp, cs: seq<Contour>, fx: real, fy: real): (r: seq<Contour>)
    requires HasPoint(cs) ==> CanScale(op, fx, fy)
    ensures |r| == |cs|
    ensures forall i :: 0 <= i < |cs| ==> r[i] == ScaleContour(op, cs[i], fx, fy)
  {
    if cs == [] then []
    else
      assert HasPoint(cs[1..]) ==> HasPoint(cs);
      [ScaleContour(op, cs[0], fx, fy)] + ScaleContours(op, cs[1..], fx, fy)
  }

  /** The contour part of the scalar operation, point by point; dividing a point by a zero
      factor is an error. */
  method ProcessMathTwoContours(op: ScaleOp, cs: seq<Contour>, fx: real, fy: real)
    returns (r: Result<seq<Contour>, MathError>)
    ensures HasPoint(cs) ==> CanScale(op, fx, fy) ==> r == Ok(ScaleContours(op, cs, fx, fy))
    ensures !HasPoint(cs) ==> r == Ok(cs) && cs == ScaleContours(op, cs, fx, fy)
    ensures HasPoint(cs) && !CanScale(op, fx, fy) ==> r == Err(ZeroDivision)
  {
    var contours: seq<Contour> := [];
    var i := 0;
    while i < |cs|
      invariant 0 <= i <= |cs|
      invariant forall k :: 0 <= k < i ==> cs[k] == [] || CanScale(op, fx, fy)
      invariant |contours| == i
      invariant forall k :: 0 <= k < i ==> contours[k] == ScaleContour(op, cs[k], fx, fy)
    {
      var contour := ScaleContourLoop(op, cs[i], fx, fy);
      if contour.Err? {
        assert HasPoint(cs) by {
          assert cs[i] != [];
        }
        return Err(ZeroDivision);
      }
      contours := contours + [contour.value];
      i := i + 1;
    }
    if !HasPoint(cs) {
      ScaleContoursNoPoint(op, cs, fx, fy);
    }
    assert contours == ScaleContours(op, cs, fx, fy);
    return Ok(contours);
  }

  /** Without a point to scale, the contours come back as they are, whatever the factors. */
  lemma ScaleContoursNoPoint(op: ScaleOp, cs: seq<Contour>, fx: real, fy: real)
    requires !HasPoint(cs)
    ensures ScaleContours(op, cs, fx, fy) == cs
  {
    var r := ScaleContours(op, cs, fx, fy);
    forall i | 0 <= i < |cs|
      ensures r[i] == cs[i]
    {
      assert cs[i] == [];
    }
  }

  /** One contour of the scalar operation, point by point; the point function fails on the
      first point when it divides by zero. */
  method ScaleContourLoop(op: ScaleOp, selfContour: Contour, fx: real, fy: real)
    returns (r: Result<Contour, MathError>)
    ensures selfContour != [] && !CanScale(op, fx, fy) ==> r == Err(ZeroDivision)
    ensures selfContour == [] || CanScale(op, fx, fy) ==> r == Ok(ScaleContour(op, selfContour, fx, fy))
  {
    var contour: Contour := [];
    var j := 0;
    while j < |selfContour|
      invariant 0 <= j <= |selfContour|
      invariant j > 0 ==> CanScale(op, fx, fy)
      invariant |contour| == j
      invariant forall m :: 0 <= m < j ==> contour[m] == selfContour[m].(pt := ScalePt(op, selfContour[m].pt, fx, fy))
    {
      if !CanScale(op, fx, fy) {
        return Err(ZeroDivision);
      }
      var point := selfContour[j];
      contour := contour + [point.(pt := ScalePt(op, point.pt, fx, fy))];
      j := j + 1;
    }
    assert contour == ScaleContour(op, selfContour, fx, fy);
    return Ok(contour);
  }

  /** Each anchor keeps its name, identifier and color; its coordinates are scaled. */
  function ScaleAnchors(op: ScaleOp, anchors: seq<Anchor>, fx: real, fy: real): (r: seq<Anchor>)
    requires anchors != [] ==> CanScale(op, fx, fy)
    ensures |r| == |anchors|
    ensures forall k :: 0 <= k < |anchors| ==>
      r[k] == anchors[k].(x := Scale(op, anchors[k].x, fx), y := Scale(op, anchors[k].y, fy))
  {
    if anchors == [] then []
    else
      var a := anchors[0];
      [a.(x := Scale(op, a.x, fx), y := Scale(op, a.y, fy))] + ScaleAnchors(op, anchors[1..], fx, fy)
  }

  /** The transformation scaled as the point pairs (xScale, yScale), (xyScale, yxScale) and
      (xOffset, yOffset): the first of each pair by the x factor, the second by the y factor. */
  function ScaleTransform(op: ScaleOp, t: Transform, fx: real, fy: real): Transform
    requires CanScale(op, fx, fy)
  {
    var scale := ScalePt(op, Pt(t.xScale, t.yScale), fx, fy);
    var skew := ScalePt(op, Pt(t.xyScale, t.yxScale), fx, fy);
    var offset := ScalePt(op, Pt(t.xOffset, t.yOffset), fx, fy);
    Transform(scale.x, skew.x, skew.y, scale.y, offset.x, offset.y)
  }

  function ScaleComponents(op: ScaleOp, components: seq<Component>, fx: real, fy: real): (r: seq<Component>)
    requires components != [] ==> CanScale(op, fx, fy)
    ensures |r| == |components|
    ensures forall k :: 0 <= k < |components| ==>
      r[k] == components[k].(transformation := ScaleTransform(op, components[k].transformation, fx, fy))
  {
    if components == [] then []
    else
      var c := components[0];
      [c.(transformation := ScaleTransform(op, c.transformation, fx, fy))] + ScaleComponents(op, components[1..], fx, fy)
  }

  /** Whether the scalar operation applies the point function at all. */
  predicate Touches(g: MathGlyph)
  {
    HasPoint(g.contours) || |g.anchors| > 0 || |g.components| > 0
  }

  /** glyph × factor and glyph ÷ factor: every point, anchor and transformation scaled per axis,
      the width by the x factor alone. Division fails when the x factor is zero (the width is
      always divided) or when the y factor is zero and some point function runs. */
  function ScaleGlyph(op: ScaleOp, g: MathGlyph, f: FactorArg): (r: Result<MathGlyph, MathError>)
    ensures r.Err? <==> op == Over && (XFactor(f) == 0.0 || (YFactor(f) == 0.0 && Touches(g)))
    ensures r.Err? ==> r.error == ZeroDivision
    ensures r.Ok? ==>
      && r.value.width == Scale(op, g.width, XFactor(f))
      && r.value.generationCount == g.generationCount + 1
      && r.value.name == g.name && r.value.unicodes == g.unicodes
      && r.value.note == g.note && r.value.lib == g.lib
      && |r.value.contours| == |g.contours|
      && |r.value.anchors| == |g.anchors|
      && |r.value.components| == |g.components|
  {
    var fx, fy := XFactor(f), YFactor(f);
    if Touches(g) && !CanScale(op, fx, fy) then Err(ZeroDivision)
    else if op == Over && fx == 0.0 then Err(ZeroDivision)
    else
      var copied := CopyWithoutIterables(g);
      var anchors := if |g.anchors| > 0 then ScaleAnchors(op, g.anchors, fx, fy) else [];
      var components := if |g.components| > 0 then ScaleComponents(op, g.components, fx, fy) else [];
      Ok(copied.(contours := ScaleContours(op, g.contours, fx, fy), anchors := anchors,
                 components := components, width := Scale(op, g.width, fx)))
  }

  /** The scalar operation as the source runs it: expand the factor, copy, scale the contours
      point by point, then anchors, components and width. */
  method ScaleGlyphMethod(op: ScaleOp, g: MathGlyph, f: FactorArg) returns (r: Result<MathGlyph, MathError>)
    ensures r == ScaleGlyph(op, g, f)
  {
    var fx, fy := XFactor(f), YFactor(f);
    var copied := CopyWithoutIterables(g);
    var contours := ProcessMathTwoContours(op, g.contours, fx, fy);
    if contours.Err? {
      return Err(contours.error);
    }
    copied := copied.(contours := contours.value);
    if |g.anchors| > 0 {
      if !CanScale(op, fx, fy) {
        return Err(ZeroDivision);
      }
      copied := copied.(anchors := ScaleAnchors(op, g.anchors, fx, fy));
    }
    if |g.components| > 0 {
      if !CanScale(op, fx, fy) {
        return Err(ZeroDivision);
      }
      copied := copied.(components := ScaleComponents(op, g.components, fx, fy));
    }
    if op == Over && fx == 0.0 {
      return Err(ZeroDivision);
    }
    copied := copied.(width := Scale(op, g.width, fx));
    return Ok(copied);
  }

  /** With factors the operation accepts, every point, anchor and transformation is scaled per
      axis, and each keeps its segment type, smooth flag, names, identifier and base glyph. */
  lemma ScaleGlyphScales(op: ScaleOp, g: MathGlyph, f: FactorArg)
    requires CanScale(op, XFactor(f), YFactor(f))
    ensures ScaleGlyph(op, g, f).Ok?
    ensures forall i, j :: 0 <= i < |g.contours| && 0 <= j < |g.contours[i]| ==>
      ScaleGlyph(op, g, f).value.contours[i][j] ==
        g.contours[i][j].(pt := ScalePt(op, g.contours[i][j].pt, XFactor(f), YFactor(f)))
    ensures forall k :: 0 <= k < |g.anchors| ==>
      ScaleGlyph(op, g, f).value.anchors[k] ==
        g.anchors[k].(x := Scale(op, g.anchors[k].x, XFactor(f)), y := Scale(op, g.anchors[k].y, YFactor(f)))
    ensures forall k :: 0 <= k < |g.components| ==>
      ScaleGlyph(op, g, f).value.components[k] ==
        g.components[k].(transformation := ScaleTransform(op, g.components[k].transformation, XFactor(f), YFactor(f)))
  {
    var r := ScaleGlyph(op, g, f).value;
    forall i | 0 <= i < |g.contours|
      ensures r.contours[i] == ScaleContour(op, g.contours[i], XFactor(f), YFactor(f))
    {
    }
  }

  function Mul(g: MathGlyph, f: FactorArg): MathGlyph
  {
    ScaleGlyph(Times, g, f).value
  }

  function Div(g: MathGlyph, f: FactorArg): Result<MathGlyph, MathError>
  {
    ScaleGlyph(Over, g, f)
  }

  /** Dividing by the factor just multiplied by gives the glyph back, two generations on. */
  lemma DivUndoesMul(g: MathGlyph, f: FactorArg)
    requires XFactor(f) != 0.0 && YFactor(f) != 0.0
    ensures Div(Mul(g, f), f) == Ok(g.(generationCount := g.generationCount + 2))
  {
    var fx, fy := XFactor(f), YFactor(f);
    var m := Mul(g, f);
    ScaleGlyphParts(Times, g, f);
    ScaleGlyphParts(Over, m, f);
    ContoursScaleCancel(g.contours, fx, fy);
    AnchorScaleCancels(g.anchors, fx, fy);
    ComponentScaleCancels(g.components, fx, fy);
    ScaleCancels(g.width, fx);
  }

  /** With factors the operation accepts, the result is the glyph with every part scaled. */
  lemma ScaleGlyphParts(op: ScaleOp, g: MathGlyph, f: FactorArg)
    requires CanScale(op, XFactor(f), YFactor(f))
    ensures ScaleGlyph(op, g, f) == Ok(g.(
      contours := ScaleContours(op, g.contours, XFactor(f), YFactor(f)),
      anchors := ScaleAnchors(op, g.anchors, XFactor(f), YFactor(f)),
      components := ScaleComponents(op, g.components, XFactor(f), YFactor(f)),
      width := Scale(op, g.width, XFactor(f)),
      generationCount := g.generationCount + 1))
  {
  }

  lemma ContoursScaleCancel(cs: seq<Contour>, fx: real, fy: real)
    requires fx != 0.0 && fy != 0.0
    ensures ScaleContours(Over, ScaleContours(Times, cs, fx, fy), fx, fy) == cs
  {
    var d := ScaleContours(Over, ScaleContours(Times, cs, fx, fy), fx, fy);
    forall i | 0 <= i < |cs|
      ensures d[i] == cs[i]
    {
      ContourScaleCancels(cs[i], fx, fy);
    }
  }

  lemma ContourScaleCancels(c: Contour, fx: real, fy: real)
    requires fx != 0.0 && fy != 0.0
    ensures ScaleContour(Over, ScaleContour(Times, c, fx, fy), fx, fy) == c
  {
    var d := ScaleContour(Over, ScaleContour(Times, c, fx, fy), fx, fy);
    forall j | 0 <= j < |c|
      ensures d[j] == c[j]
    {
      ScaleCancels(c[j].pt.x, fx);
      ScaleCancels(c[j].pt.y, fy);
    }
  }

  lemma AnchorScaleCancels(anchors: seq<Anchor>, fx: real, fy: real)
    requires fx != 0.0 && fy != 0.0
    ensures ScaleAnchors(Over, ScaleAnchors(Times, anchors, fx, fy), fx, fy) == anchors
  {
    var d := ScaleAnchors(Over, ScaleAnchors(Times, anchors, fx, fy), fx, fy);
    forall k | 0 <= k < |anchors|
      ensures d[k] == anchors[k]
    {
      ScaleCancels(anchors[k].x, fx);
      ScaleCancels(anchors[k].y, fy);
    }
  }

  lemma ComponentScaleCancels(components: seq<Component>, fx: real, fy: real)
    requires fx != 0.0 && fy != 0.0
    ensures ScaleComponents(Over, ScaleComponents(Times, components, fx, fy), fx, fy) == components
  {
    var d := ScaleComponents(Over, ScaleComponents(Times, components, fx, fy), fx, fy);
    forall k | 0 <= k < |components|
      ensures d[k] == components[k]
    {
      var t := components[k].transformation;
      ScaleCancels(t.xScale, fx);
      ScaleCancels(t.xyScale, fx);
      ScaleCancels(t.yxScale, fy);
      ScaleCancels(t.yScale, fy);
      ScaleCancels(t.xOffset, fx);
      ScaleCancels(t.yOffset, fy);
    }
  }

  lemma ScaleCancels(a: real, f: real)
    requires f != 0.0
    ensures Scale(Over, Scale(Times, a, f), f) == a
  {
  }

  /** Multiplying by one changes nothing but the generation count. */
  lemma MulByOne(g: MathGlyph)
    ensures Mul(g, Scalar(1.0)) == g.(generationCount := g.generationCount + 1)
  {
    var m := Mul(g, Scalar(1.0));
    forall i | 0 <= i < |g.contours|
      ensures m.contours[i] == g.contours[i]
    {
      assert m.contours[i] == ScaleContour(Times, g.contours[i], 1.0, 1.0);
    }
    assert m.contours == g.contours;
  }

  /** A glyph plus itself is the glyph times two: the same contours, components and width, and
      the same anchors up to the regrouping by name. */
  lemma AddSelfIsDouble(g: MathGlyph)
    ensures Add(g, g).Ok?
    ensures Add(g, g).value.contours == Mul(g, Scalar(2.0)).contours
    ensures Add(g, g).value.components == Mul(g, Scalar(2.0)).components
    ensures Add(g, g).value.width == Mul(g, Scalar(2.0)).width
    ensures multiset(Add(g, g).value.anchors) == multiset(Mul(g, Scalar(2.0)).anchors)
  {
    var m := Mul(g, Scalar(2.0));
    var a := Add(g, g);
    ScaleGlyphParts(Times, g, Scalar(2.0));
    AddSelfContours(g.contours);
    assert a.Ok? && a.value.contours == m.contours;
    if |g.components| > 0 {
      AddSelfComponents(g.components);
    }
    assert a.value.components == m.components;
    if |g.anchors| > 0 {
      AddSelfAnchors(g.anchors);
    }
    assert a.value.anchors == (if |g.anchors| > 0 then CombineAnchors(Plus, AnchorPairsOf(g, g)) else []);
  }

  lemma AddSelfContours(cs: seq<Contour>)
    ensures CombinableContours(cs, cs)
    ensures CombineContours(Plus, cs, cs) == ScaleContours(Times, cs, 2.0, 2.0)
  {
    assert CombinableContours(cs, cs);
    forall i | 0 <= i < |cs|
      ensures CombineContours(Plus, cs, cs)[i] == ScaleContours(Times, cs, 2.0, 2.0)[i]
    {
      assert CombineContours(Plus, cs, cs)[i] == CombineContour(Plus, cs[i], cs[i]);
      assert ScaleContours(Times, cs, 2.0, 2.0)[i] == ScaleContour(Times, cs[i], 2.0, 2.0);
    }
  }

  lemma AddSelfComponents(c: seq<Component>)
    ensures CombineComponents(Plus, PairComponents(c, c)) == ScaleComponents(Times, c, 2.0, 2.0)
  {
    PairComponentsSelf(c);
    var sum, twice := CombineComponents(Plus, Zip(c, c)), ScaleComponents(Times, c, 2.0, 2.0);
    forall k | 0 <= k < |c|
      ensures sum[k] == twice[k]
    {
      assert Zip(c, c)[k] == (c[k], c[k]);
      TransformAddSelf(c[k].transformation);
    }
  }

  lemma TransformAddSelf(t: Transform)
    ensures CombineTransform(Plus, t, t) == ScaleTransform(Times, t, 2.0, 2.0)
  {
  }

  lemma AddSelfAnchors(anchors: seq<Anchor>)
    requires anchors != []
    ensures multiset(CombineAnchors(Plus, PairAnchors(AnchorTreeOf(anchors), AnchorTreeOf(anchors), NameOrder(anchors))))
      == multiset(ScaleAnchors(Times, anchors, 2.0, 2.0))
  {
    var sum, twice := CombineAnchors(Plus, Zip(anchors, anchors)), ScaleAnchors(Times, anchors, 2.0, 2.0);
    forall k | 0 <= k < |anchors|
      ensures sum[k] == twice[k]
    {
      var a := anchors[k];
      assert Zip(anchors, anchors)[k] == (a, a);
      assert sum[k] == a.(x := a.x + a.x, y := a.y + a.y);
      assert twice[k] == a.(x := a.x * 2.0, y := a.y * 2.0);
    }
    assert sum == twice;
    PairAlignedAnchors(Plus, anchors, anchors);
  }

  /** Adding a glyph of the same shape whose points, transformations, anchors and width are all
      zero changes nothing but the generation count: the same contours, components and width,
      and the same anchors (grouped by name). */
  lemma AddZero(g: MathGlyph, z: MathGlyph)
    requires CombinableContours(g.contours, z.contours)
    requires forall i, j :: 0 <= i < |z.contours| && 0 <= j < |z.contours[i]| ==> z.contours[i][j].pt == Pt(0.0, 0.0)
    requires z.width == 0.0
    requires |z.components| == |g.components|
    requires forall k :: 0 <= k < |g.components| ==>
      SameBaseAndIdentifier(g.components[k], z.components[k])
      && z.components[k].transformation == Transform(0.0, 0.0, 0.0, 0.0, 0.0, 0.0)
    requires |z.anchors| == |g.anchors|
    requires forall k :: 0 <= k < |g.anchors| ==>
      z.anchors[k].name == g.anchors[k].name && z.anchors[k].identifier == g.anchors[k].identifier
      && z.anchors[k].x == 0.0 && z.anchors[k].y == 0.0
    ensures Add(g, z).Ok?
    ensures Add(g, z).value.contours == g.contours
    ensures Add(g, z).value.components == g.components
    ensures Add(g, z).value.width == g.width
    ensures multiset(Add(g, z).value.anchors) == multiset(g.anchors)
  {
    AddZeroContours(g.contours, z.contours);
    if |g.components| > 0 {
      AddZeroComponents(g.components, z.components);
    }
    if |g.anchors| > 0 {
      AddZeroAnchors(g.anchors, z.anchors);
    }
  }

  lemma AddZeroComponents(c: seq<Component>, zc: seq<Component>)
    requires |zc| == |c|
    requires forall k :: 0 <= k < |c| ==>
      SameBaseAndIdentifier(c[k], zc[k]) && zc[k].transformation == Transform(0.0, 0.0, 0.0, 0.0, 0.0, 0.0)
    ensures CombineComponents(Plus, PairComponents(c, zc)) == c
  {
    PairComponentsAligned(c, zc);
    var sum := CombineComponents(Plus, Zip(c, zc));
    forall k | 0 <= k < |c|
      ensures sum[k] == c[k]
    {
      assert Zip(c, zc)[k] == (c[k], zc[k]);
    }
  }

  lemma AddZeroAnchors(anchors: seq<Anchor>, zeros: seq<Anchor>)
    requires |zeros| == |anchors|
    requires forall k :: 0 <= k < |anchors| ==>
      zeros[k].name == anchors[k].name && zeros[k].identifier == anchors[k].identifier
      && zeros[k].x == 0.0 && zeros[k].y == 0.0
    ensures multiset(CombineAnchors(Plus, PairAnchors(AnchorTreeOf(anchors), AnchorTreeOf(zeros), NameOrder(anchors))))
      == multiset(anchors)
  {
    CombineZeroAnchors(anchors, zeros);
    PairAlignedAnchors(Plus, anchors, zeros);
  }

  lemma CombineZeroAnchors(anchors: seq<Anchor>, zeros: seq<Anchor>)
    requires |zeros| == |anchors|
    requires forall k :: 0 <= k < |anchors| ==> zeros[k].x == 0.0 && zeros[k].y == 0.0
    ensures CombineAnchors(Plus, Zip(anchors, zeros)) == anchors
  {
    var sum := CombineAnchors(Plus, Zip(anchors, zeros));
    assert forall k :: 0 <= k < |anchors| ==> sum[k] == anchors[k];
  }

  lemma AddZeroContours(cs: seq<Contour>, zs: seq<Contour>)
    requires CombinableContours(cs, zs)
    requires forall i, j :: 0 <= i < |zs| && 0 <= j < |zs[i]| ==> zs[i][j].pt == Pt(0.0, 0.0)
    ensures CombineContours(Plus, cs, zs) == cs
  {
    forall i | 0 <= i < |cs|
      ensures CombineContour(Plus, cs[i], zs[i]) == cs[i]
    {
      assert forall j :: 0 <= j < |cs[i]| ==> zs[i][j].pt == Pt(0.0, 0.0);
    }
  }

  /** Anchor lists that agree position by position on name and identifier are paired position
      by position: combining the pairs the anchor trees make gives, up to the regrouping by
      name, the anchors combined index by index. */
  lemma PairAlignedAnchors(op: BinaryOp, anchors1: seq<Anchor>, anchors2: seq<Anchor>)
    requires |anchors1| == |anchors2|
    requires forall k :: 0 <= k < |anchors1| ==>
      anchors1[k].name == anchors2[k].name && anchors1[k].identifier == anchors2[k].identifier
    ensures multiset(CombineAnchors(op, PairAnchors(AnchorTreeOf(anchors1), AnchorTreeOf(anchors2), NameOrder(anchors1))))
      == multiset(CombineAnchors(op, Zip(anchors1, anchors2)))
  {
    var combined := CombineAnchors(op, Zip(anchors1, anchors2));
    var order := NameOrder(anchors1);
    forall n | n in order
      ensures n in AnchorNames(anchors2)
    {
      var a :| a in anchors1 && a.name == n;
      var k :| 0 <= k < |anchors1| && anchors1[k] == a;
      assert anchors2[k] in anchors2;
    }
    PairAnchorsCombined(op, anchors1, anchors2, combined, order);
    forall k | 0 <= k < |combined|
      ensures combined[k].name in order
    {
      assert anchors1[k] in anchors1;
    }
    RegroupedPermutes(combined, order);
  }

  /** Anchors combined index by index, with the entries of each name's bucket. */
  predicate CombinedAt(op: BinaryOp, anchors1: seq<Anchor>, anchors2: seq<Anchor>, combined: seq<Anchor>)
  {
    && |anchors1| == |anchors2| == |combined|
    && forall k :: 0 <= k < |anchors1| ==>
      && anchors1[k].name == anchors2[k].name && anchors1[k].identifier == anchors2[k].identifier
      && combined[k] == anchors1[k].(x := Combine(op, anchors1[k].x, anchors2[k].x), y := Combine(op, anchors1[k].y, anchors2[k].y))
  }

  predicate CombinedEntries(op: BinaryOp, b1: seq<AnchorEntry>, b2: seq<AnchorEntry>, bc: seq<AnchorEntry>)
  {
    && |b1| == |b2| == |bc|
    && forall k :: 0 <= k < |b1| ==>
      && b2[k].identifier == b1[k].identifier
      && bc[k] == b1[k].(x := Combine(op, b1[k].x, b2[k].x), y := Combine(op, b1[k].y, b2[k].y))
  }

  /** The bucket of a name in each list keeps the position-by-position agreement. */
  lemma {:induction false} BucketsCombined(op: BinaryOp, anchors1: seq<Anchor>, anchors2: seq<Anchor>,
                                           combined: seq<Anchor>, name: Option<string>)
    requires CombinedAt(op, anchors1, anchors2, combined)
    ensures CombinedEntries(op, Bucket(anchors1, name), Bucket(anchors2, name), Bucket(combined, name))
    decreases |anchors1|
  {
    if anchors1 != [] {
      var m := |anchors1| - 1;
      var a1, a2, c := anchors1[m], anchors2[m], combined[m];
      CombinedAtPrefix(op, anchors1, anchors2, combined);
      BucketsCombined(op, anchors1[..m], anchors2[..m], combined[..m], name);
      var b1, b2, bc := Bucket(anchors1[..m], name), Bucket(anchors2[..m], name), Bucket(combined[..m], name);
      if a1.name == name {
        CombinedEntriesSnoc(op, b1, b2, bc, EntryOf(a1), EntryOf(a2), EntryOf(c));
      } else {
        assert b1 + [] == b1 && b2 + [] == b2 && bc + [] == bc;
      }
    }
  }

  lemma CombinedAtPrefix(op: BinaryOp, anchors1: seq<Anchor>, anchors2: seq<Anchor>, combined: seq<Anchor>)
    requires CombinedAt(op, anchors1, anchors2, combined) && anchors1 != []
    ensures var m := |anchors1| - 1;
      && CombinedAt(op, anchors1[..m], anchors2[..m], combined[..m])
      && anchors1[m].name == anchors2[m].name == combined[m].name
      && EntryOf(anchors2[m]).identifier == EntryOf(anchors1[m]).identifier
      && EntryOf(combined[m]) == EntryOf(anchors1[m]).(x := Combine(op, anchors1[m].x, anchors2[m].x),
                                                        y := Combine(op, anchors1[m].y, anchors2[m].y))
  {
  }

  lemma CombinedEntriesSnoc(op: BinaryOp, b1: seq<AnchorEntry>, b2: seq<AnchorEntry>, bc: seq<AnchorEntry>,
                            e1: AnchorEntry, e2: AnchorEntry, ec: AnchorEntry)
    requires CombinedEntries(op, b1, b2, bc)
    requires e2.identifier == e1.identifier && ec == e1.(x := Combine(op, e1.x, e2.x), y := Combine(op, e1.y, e2.y))
    ensures CombinedEntries(op, b1 + [e1], b2 + [e2], bc + [ec])
  {
  }

  /** Aligned buckets are paired in order, and the combined pairs are the combined bucket. */
  lemma PairBucketCombined(op: BinaryOp, name: Option<string>, b1: seq<AnchorEntry>, b2: seq<AnchorEntry>,
                           bc: seq<AnchorEntry>)
    requires CombinedEntries(op, b1, b2, bc)
    ensures CombineAnchors(op, PairBucket(name, b1, b2)) == Unbucket(name, bc)
  {
    var none: seq<AnchorEntry> := [];
    GreedyPassAligned(b1, b2, SameIdentifier);
    assert Zip(none, none) == [];
    assert PairBucket(name, b1, b2) == Named(name, Zip(b1, b2)) + Named(name, []);
  }

  lemma {:induction false} PairAnchorsCombined(op: BinaryOp, anchors1: seq<Anchor>, anchors2: seq<Anchor>,
                                               combined: seq<Anchor>, order: seq<Option<string>>)
    requires CombinedAt(op, anchors1, anchors2, combined)
    requires forall n :: n in order ==> n in AnchorNames(anchors1) && n in AnchorNames(anchors2)
    ensures CombineAnchors(op, PairAnchors(AnchorTreeOf(anchors1), AnchorTreeOf(anchors2), order)) == Regrouped(combined, order)
    decreases |order|
  {
    if order != [] {
      var n := order[0];
      var tree1, tree2 := AnchorTreeOf(anchors1), AnchorTreeOf(anchors2);
      PairAnchorsUnfold(tree1, tree2, order);
      BucketsCombined(op, anchors1, anchors2, combined, n);
      PairBucketCombined(op, n, tree1[n], tree2[n], Bucket(combined, n));
      PairAnchorsCombined(op, anchors1, anchors2, combined, order[1..]);
      CombineAnchorsAppend(op, PairBucket(n, tree1[n], tree2[n]), PairAnchors(tree1, tree2, order[1..]));
    }
  }

  lemma CombineAnchorsAppend(op: BinaryOp, a: seq<(Anchor, Anchor)>, b: seq<(Anchor, Anchor)>)
    ensures CombineAnchors(op, a + b) == CombineAnchors(op, a) + CombineAnchors(op, b)
  {
    assert CombineAnchors(op, a + b) == CombineAnchors(op, a) + CombineAnchors(op, b);
  }

  // ------------------------------------------------ copy and comparison

  /** The contours a glyph gets back when it is drawn into a fresh pen: each one normalised. */
  function NormalizeContours(cs: seq<Contour>): (r: seq<Contour>)
    requires forall i :: 0 <= i < |cs| ==> Normalizable(cs[i])
    ensures |r| == |cs| && forall i :: 0 <= i < |cs| ==> r[i] == Normalize(cs[i])
  {
    if cs == [] then [] else [Normalize(cs[0])] + NormalizeContours(cs[1..])
  }

  /** The components a glyph gets back when it is drawn into a fresh pen: the point-pen call
      passes the base glyph and the transformation, so the identifier is lost. */
  function DropIdentifiers(components: seq<Component>): (r: seq<Component>)
    ensures |r| == |components|
    ensures forall k :: 0 <= k < |components| ==> r[k] == components[k].(identifier := None)
  {
    if components == [] then [] else [components[0].(identifier := None)] + DropIdentifiers(components[1..])
  }

  /** A new glyph built from this one: drawn into a fresh pen, anchors and lib copied, one
      generation on. */
  function Copy(g: MathGlyph): MathGlyph
    requires forall i :: 0 <= i < |g.contours| ==> Normalizable(g.contours[i])
  {
    g.(contours := NormalizeContours(g.contours), components := DropIdentifiers(g.components),
       generationCount := g.generationCount + 1)
  }

  /** Building the copy: draw every contour and component of the glyph into a new pen. */
  method CopyGlyph(g: MathGlyph) returns (r: MathGlyph)
    requires forall i :: 0 <= i < |g.contours| ==> Normalizable(g.contours[i])
    ensures r == Copy(g)
  {
    var pen := new MathGlyphPen();
    var i := 0;
    while i < |g.contours|
      invariant 0 <= i <= |g.contours|
      invariant pen.contours == NormalizeContours(g.contours[..i]) && pen.components == []
    {
      DrawContour(pen, g.contours[i]);
      NormalizeContoursSnoc(g.contours, i);
      i := i + 1;
    }
    assert g.contours[..i] == g.contours;
    var k := 0;
    while k < |g.components|
      invariant 0 <= k <= |g.components|
      invariant pen.contours == NormalizeContours(g.contours)
      invariant pen.components == DropIdentifiers(g.components[..k])
    {
      var component := g.components[k];
      pen.AddComponent(component.baseGlyph, component.transformation, None);
      DropIdentifiersSnoc(g.components, k);
      k := k + 1;
    }
    assert g.components[..k] == g.components;
    r := g.(contours := pen.contours, components := pen.components, generationCount := g.generationCount + 1);
  }

  /** Drawing one contour: begin a path, add its points in order, end the path. */
  method DrawContour(pen: MathGlyphPen, contour: Contour)
    requires Normalizable(contour)
    modifies pen
    ensures pen.contours == old(pen.contours) + [Normalize(contour)]
    ensures pen.components == old(pen.components)
  {
    pen.BeginPath();
    var j := 0;
    while j < |contour|
      invariant 0 <= j <= |contour|
      invariant pen.points == contour[..j]
      invariant pen.contours == old(pen.contours) && pen.components == old(pen.components)
    {
      var point := contour[j];
      pen.AddPoint(point.pt, point.seg, point.smooth, point.name);
      assert contour[..j + 1] == contour[..j] + [point];
      j := j + 1;
    }
    assert contour[..j] == contour;
    pen.EndPath();
  }

  lemma DropIdentifiersSnoc(components: seq<Component>, k: nat)
    requires k < |components|
    ensures DropIdentifiers(components[..k + 1]) == DropIdentifiers(components[..k]) + [components[k].(identifier := None)]
  {
    var before, after := DropIdentifiers(components[..k]), DropIdentifiers(components[..k + 1]);
    forall n | 0 <= n < |after|
      ensures after[n] == (before + [components[k].(identifier := None)])[n]
    {
      assert components[..k + 1][n] == components[n];
    }
  }

  lemma NormalizeContoursSnoc(cs: seq<Contour>, i: nat)
    requires i < |cs| && forall k :: 0 <= k < |cs| ==> Normalizable(cs[k])
    ensures NormalizeContours(cs[..i + 1]) == NormalizeContours(cs[..i]) + [Normalize(cs[i])]
  {
    var before, after := NormalizeContours(cs[..i]), NormalizeContours(cs[..i + 1]);
    assert |after| == |before| + 1;
    forall k | 0 <= k < |after|
      ensures after[k] == (before + [Normalize(cs[i])])[k]
    {
      assert cs[..i + 1][k] == cs[k];
      if k < i {
        assert cs[..i][k] == cs[k];
        assert (before + [Normalize(cs[i])])[k] == before[k];
      }
    }
  }

  /** The comparison: true when the glyphs differ in name, unicodes, width, note, lib, contours,
      components or anchors. */
  function GlyphDiffers(a: MathGlyph, b: MathGlyph): bool
  {
    a.name != b.name || a.unicodes != b.unicodes || a.width != b.width || a.note != b.note
      || a.lib != b.lib || a.contours != b.contours || a.components != b.components || a.anchors != b.anchors
  }

  /** Two glyphs compare equal exactly when they agree in everything but the generation count. */
  lemma GlyphEqualIff(a: MathGlyph, b: MathGlyph)
    ensures !GlyphDiffers(a, b) <==> a.(generationCount := 0) == b.(generationCount := 0)
  {
  }

  lemma {:induction false} NoLineCount(p: seq<PointRec>)
    requires forall k :: 0 <= k < |p| ==> p[k].seg != Line
    ensures LineCount(p) == 0
    decreases |p|
  {
    if p != [] {
      NoLineCount(p[1..]);
    }
  }

  /** A copy holds no line segments, and copying it again gives the same contours and components. */
  lemma CopyTwice(g: MathGlyph)
    requires forall i :: 0 <= i < |g.contours| ==> Normalizable(g.contours[i])
    ensures forall i, j :: 0 <= i < |Copy(g).contours| && 0 <= j < |Copy(g).contours[i]| ==> Copy(g).contours[i][j].seg != Line
    ensures forall i :: 0 <= i < |Copy(g).contours| ==> Normalizable(Copy(g).contours[i])
    ensures !GlyphDiffers(Copy(Copy(g)), Copy(g))
  {
    var c := Copy(g);
    forall i | 0 <= i < |c.contours|
      ensures (forall j :: 0 <= j < |c.contours[i]| ==> c.contours[i][j].seg != Line)
      ensures Normalizable(c.contours[i]) && Normalize(c.contours[i]) == c.contours[i]
    {
      NormalizeNoLines(g.contours[i]);
      NormalizeLength(g.contours[i]);
      NoLineCount(c.contours[i]);
      NormalizeIdempotent(c.contours[i]);
    }
    assert NormalizeContours(c.contours) == c.contours;
  }

  /** A glyph as a pen builds it, with no line segments and no component identifiers, compares
      equal to its copy. */
  lemma CopyEqual(g: MathGlyph)
    requires forall i :: 0 <= i < |g.contours| ==> g.contours[i] != [] && LineCount(g.contours[i]) == 0
    requires forall k :: 0 <= k < |g.components| ==> g.components[k].identifier == None
    ensures forall i :: 0 <= i < |g.contours| ==> Normalizable(g.contours[i])
    ensures !GlyphDiffers(Copy(g), g)
  {
    forall i | 0 <= i < |g.contours|
      ensures Normalizable(g.contours[i]) && Normalize(g.contours[i]) == g.contours[i]
    {
      NormalizeIdempotent(g.contours[i]);
    }
    assert NormalizeContours(g.contours) == g.contours;
    assert DropIdentifiers(g.components) == g.components;
  }
}
