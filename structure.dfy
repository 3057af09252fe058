/** The structure signature of a math glyph and the compatibility test built on it. */
module Structure {
  import opened Types

  /** The segment types of one contour, in order. */
  function SegmentTypes(c: Contour): (r: seq<SegmentType>)
    ensures |r| == |c| && forall j :: 0 <= j < |c| ==> r[j] == c[j].seg
  {
    if c == [] then [] else [c[0].seg] + SegmentTypes(c[1..])
  }

  function ContourStructure(contours: seq<Contour>): (r: seq<seq<SegmentType>>)
    ensures |r| == |contours| && forall i :: 0 <= i < |contours| ==> r[i] == SegmentTypes(contours[i])
  {
    if contours == [] then [] else [SegmentTypes(contours[0])] + ContourStructure(contours[1..])
  }

  function ComponentStructure(components: seq<Component>): (r: seq<string>)
    ensures |r| == |components| && forall i :: 0 <= i < |components| ==> r[i] == components[i].baseGlyph
  {
    if components == [] then [] else [components[0].baseGlyph] + ComponentStructure(components[1..])
  }

  function AnchorStructure(anchors: seq<Anchor>): (r: seq<Option<string>>)
    ensures |r| == |anchors| && forall i :: 0 <= i < |anchors| ==> r[i] == anchors[i].name
  {
    if anchors == [] then [] else [anchors[0].name] + AnchorStructure(anchors[1..])
  }

  datatype GlyphStructure = GlyphStructure(contours: seq<seq<SegmentType>>, components: seq<string>, anchors: seq<Option<string>>)

  function StructureOf(g: MathGlyph): GlyphStructure
  {
    GlyphStructure(ContourStructure(g.contours), ComponentStructure(g.components), AnchorStructure(g.anchors))
  }

  /** Compares only the parts of the structure the flags ask for. */
  function IsCompatible(a: MathGlyph, b: MathGlyph, testContours: bool, testComponents: bool, testAnchors: bool): bool
  {
    var sa := StructureOf(a);
    var sb := StructureOf(b);
    && (testContours ==> sa.contours == sb.contours)
    && (testComponents ==> sa.components == sb.components)
    && (testAnchors ==> sa.anchors == sb.anchors)
  }

  /** Same number of contours, same number of points in each, same segment type at every point. */
  predicate SameContourShape(c1: seq<Contour>, c2: seq<Contour>)
  {
    && |c1| == |c2|
    && (forall i :: 0 <= i < |c1| ==> |c1[i]| == |c2[i]|)
    && (forall i, j :: 0 <= i < |c1| && 0 <= j < |c1[i]| && j < |c2[i]| ==> c1[i][j].seg == c2[i][j].seg)
  }

  lemma SegmentTypesEqual(a: Contour, b: Contour)
    ensures SegmentTypes(a) == SegmentTypes(b) <==> |a| == |b| && forall j :: 0 <= j < |a| ==> a[j].seg == b[j].seg
  {
    var sa := SegmentTypes(a);
    var sb := SegmentTypes(b);
    if sa == sb {
      forall j | 0 <= j < |a|
        ensures a[j].seg == b[j].seg
      {
        assert sa[j] == sb[j];
      }
    } else if |a| == |b| {
      var j :| 0 <= j < |a| && sa[j] != sb[j];
    }
  }

  /** Contour compatibility (the default flags) holds exactly when the contours have the same shape. */
  lemma ContourCompatibleIff(a: MathGlyph, b: MathGlyph)
    ensures IsCompatible(a, b, true, false, false) <==> SameContourShape(a.contours, b.contours)
  {
    var ca := ContourStructure(a.contours);
    var cb := ContourStructure(b.contours);
    forall i | 0 <= i < |a.contours| && i < |b.contours|
      ensures ca[i] == cb[i] <==> |a.contours[i]| == |b.contours[i]| && forall j :: 0 <= j < |a.contours[i]| ==> a.contours[i][j].seg == b.contours[i][j].seg
    {
      SegmentTypesEqual(a.contours[i], b.contours[i]);
    }
    if SameContourShape(a.contours, b.contours) {
      assert forall i :: 0 <= i < |ca| ==> ca[i] == cb[i];
    }
  }

  /** Component compatibility holds exactly when the base glyph names agree position by position. */
  lemma ComponentCompatibleIff(a: MathGlyph, b: MathGlyph)
    ensures IsCompatible(a, b, false, true, false) <==>
      |a.components| == |b.components| && forall i :: 0 <= i < |a.components| ==> a.components[i].baseGlyph == b.components[i].baseGlyph
  {
    var ca := ComponentStructure(a.components);
    var cb := ComponentStructure(b.components);
    if |a.components| == |b.components| && forall i :: 0 <= i < |a.components| ==> a.components[i].baseGlyph == b.components[i].baseGlyph {
      assert forall i :: 0 <= i < |ca| ==> ca[i] == cb[i];
    }
  }

  /** Anchor compatibility holds exactly when the anchor names agree position by position. */
  lemma AnchorCompatibleIff(a: MathGlyph, b: MathGlyph)
    ensures IsCompatible(a, b, false, false, true) <==>
      |a.anchors| == |b.anchors| && forall i :: 0 <= i < |a.anchors| ==> a.anchors[i].name == b.anchors[i].name
  {
    var ca := AnchorStructure(a.anchors);
    var cb := AnchorStructure(b.anchors);
    if |a.anchors| == |b.anchors| && forall i :: 0 <= i < |a.anchors| ==> a.anchors[i].name == b.anchors[i].name {
      assert forall i :: 0 <= i < |ca| ==> ca[i] == cb[i];
    }
  }
}
