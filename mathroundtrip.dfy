/** Drawing, arithmetic and drawing back: the normaliser commutes with the point functions of
    glyph ± glyph and glyph × factor, so a contour of line segments put through the arithmetic
    and the redundancy filter comes back as line segments. */
module MathRoundTrip {
  import opened Types
  import opened Structure
  import opened Normalizer
  import opened RedundancyFilter
  import opened RoundTrip
  import opened GlyphMath

  // ------------------------------------------------ glyph ± glyph

  /** The previous on-curve coordinates of two contours walked side by side, combined. */
  function CombineOpt(op: BinaryOp, a: Option<Pt>, b: Option<Pt>): Option<Pt>
  {
    if a.Some? && b.Some? then Some(CombinePt(op, a.value, b.value)) else None
  }

  predicate SameSegments(c1: Contour, c2: Contour)
  {
    |c1| == |c2| && forall k :: 0 <= k < |c1| ==> c1[k].seg == c2[k].seg
  }

  lemma CombineCons(op: BinaryOp, h1: PointRec, t1: Contour, h2: PointRec, t2: Contour)
    requires |t1| <= |t2|
    ensures CombineContour(op, [h1] + t1, [h2] + t2) == [h1.(pt := CombinePt(op, h1.pt, h2.pt))] + CombineContour(op, t1, t2)
  {
    assert ([h1] + t1)[1..] == t1 && ([h2] + t2)[1..] == t2;
  }

  lemma CombineAppend(op: BinaryOp, a1: Contour, b1: Contour, a2: Contour, b2: Contour)
    requires |a1| == |a2| && |b1| <= |b2|
    ensures CombineContour(op, a1 + b1, a2 + b2) == CombineContour(op, a1, a2) + CombineContour(op, b1, b2)
  {
    var l, r := CombineContour(op, a1 + b1, a2 + b2), CombineContour(op, a1, a2) + CombineContour(op, b1, b2);
    forall k | 0 <= k < |l|
      ensures l[k] == r[k]
    {
      if k < |a1| {
        assert (a1 + b1)[k] == a1[k] && (a2 + b2)[k] == a2[k];
      } else {
        assert (a1 + b1)[k] == b1[k - |a1|] && (a2 + b2)[k] == b2[k - |a1|];
      }
    }
  }

  /** The synthetic controls of a line carry the previous on-curve coordinate and the line's
      own: combining two normalised lines gives the controls of the combined line. */
  lemma CombineLineStep(op: BinaryOp, a1: Pt, q1: PointRec, t1: Contour, a2: Pt, q2: PointRec, t2: Contour)
    requires |t1| <= |t2|
    ensures CombineContour(op, [OffCurveAt(a1), OffCurveAt(q1.pt), q1.(seg := Curve)] + t1,
                               [OffCurveAt(a2), OffCurveAt(q2.pt), q2.(seg := Curve)] + t2)
      == [OffCurveAt(CombinePt(op, a1, a2)), OffCurveAt(CombinePt(op, q1.pt, q2.pt)),
          q1.(pt := CombinePt(op, q1.pt, q2.pt)).(seg := Curve)] + CombineContour(op, t1, t2)
  {
    var h1, h2 := [OffCurveAt(a1), OffCurveAt(q1.pt), q1.(seg := Curve)], [OffCurveAt(a2), OffCurveAt(q2.pt), q2.(seg := Curve)];
    CombineAppend(op, h1, t1, h2, t2);
    var h := CombineContour(op, h1, h2);
    assert h[0] == OffCurveAt(CombinePt(op, a1, a2));
    assert h[1] == OffCurveAt(CombinePt(op, q1.pt, q2.pt));
    assert h[2] == q1.(pt := CombinePt(op, q1.pt, q2.pt)).(seg := Curve);
  }

  /** Whether a line comes before any on-curve point depends on the segment types alone. */
  lemma {:induction false} SegmentsDecideFirstOnCurve(r1: Contour, r2: Contour)
    requires SameSegments(r1, r2)
    ensures FirstOnCurveNotLine(r1) <==> FirstOnCurveNotLine(r2)
    decreases |r1|
  {
    if r1 != [] {
      assert SameSegments(r1[1..], r2[1..]);
      SegmentsDecideFirstOnCurve(r1[1..], r2[1..]);
    }
  }

  lemma CombineSegments(op: BinaryOp, r1: Contour, r2: Contour)
    requires |r1| <= |r2|
    ensures SameSegments(r1, CombineContour(op, r1, r2))
  {
  }

  /** Normalising contours of one structure gives contours of one structure. */
  lemma {:induction false} NormalizeRestSegments(r1: Contour, r2: Contour, prev1: Option<Pt>, prev2: Option<Pt>)
    requires SameSegments(r1, r2)
    requires prev1.Some? || FirstOnCurveNotLine(r1)
    requires prev2.Some? || FirstOnCurveNotLine(r2)
    ensures SameSegments(NormalizeRest(r1, prev1), NormalizeRest(r2, prev2))
    decreases |r1|
  {
    if r1 != [] {
      var q1, q2 := r1[0], r2[0];
      assert SameSegments(r1[1..], r2[1..]);
      if q1.seg == OffCurve {
        NormalizeRestSegments(r1[1..], r2[1..], prev1, prev2);
        SameSegmentsAppend([q1], NormalizeRest(r1[1..], prev1), [q2], NormalizeRest(r2[1..], prev2));
      } else if q1.seg == Line {
        var t1, t2 := NormalizeRest(r1[1..], Some(q1.pt)), NormalizeRest(r2[1..], Some(q2.pt));
        NormalizeRestSegments(r1[1..], r2[1..], Some(q1.pt), Some(q2.pt));
        LineSegments(prev1.value, q1, t1, prev2.value, q2, t2);
      } else {
        NormalizeRestSegments(r1[1..], r2[1..], Some(q1.pt), Some(q2.pt));
        SameSegmentsAppend([q1], NormalizeRest(r1[1..], Some(q1.pt)), [q2], NormalizeRest(r2[1..], Some(q2.pt)));
      }
    }
  }

  lemma {:induction false} NormalizeRestCombine(op: BinaryOp, r1: Contour, r2: Contour, prev1: Option<Pt>, prev2: Option<Pt>)
    requires SameSegments(r1, r2) && prev1.Some? == prev2.Some?
    requires prev1.Some? || FirstOnCurveNotLine(r1)
    ensures prev2.Some? || FirstOnCurveNotLine(r2)
    ensures CombineOpt(op, prev1, prev2).Some? || FirstOnCurveNotLine(CombineContour(op, r1, r2))
    ensures SameSegments(NormalizeRest(r1, prev1), NormalizeRest(r2, prev2))
    ensures NormalizeRest(CombineContour(op, r1, r2), CombineOpt(op, prev1, prev2))
      == CombineContour(op, NormalizeRest(r1, prev1), NormalizeRest(r2, prev2))
    decreases |r1|
  {
    SegmentsDecideFirstOnCurve(r1, r2);
    CombineSegments(op, r1, r2);
    SegmentsDecideFirstOnCurve(r1, CombineContour(op, r1, r2));
    NormalizeRestSegments(r1, r2, prev1, prev2);
    if r1 != [] {
      var q1, q2 := r1[0], r2[0];
      assert CombineContour(op, r1, r2)[1..] == CombineContour(op, r1[1..], r2[1..]);
      assert SameSegments(r1[1..], r2[1..]);
      if q1.seg == OffCurve {
        NormalizeRestCombine(op, r1[1..], r2[1..], prev1, prev2);
        CombineCons(op, q1, NormalizeRest(r1[1..], prev1), q2, NormalizeRest(r2[1..], prev2));
      } else if q1.seg == Line {
        var n1, n2 := Some(q1.pt), Some(q2.pt);
        NormalizeRestCombine(op, r1[1..], r2[1..], n1, n2);
        CombineLineStep(op, prev1.value, q1, NormalizeRest(r1[1..], n1), prev2.value, q2, NormalizeRest(r2[1..], n2));
      } else {
        var n1, n2 := Some(q1.pt), Some(q2.pt);
        NormalizeRestCombine(op, r1[1..], r2[1..], n1, n2);
        CombineCons(op, q1, NormalizeRest(r1[1..], n1), q2, NormalizeRest(r2[1..], n2));
      }
    }
  }

  lemma LineSegments(a1: Pt, q1: PointRec, t1: Contour, a2: Pt, q2: PointRec, t2: Contour)
    requires SameSegments(t1, t2)
    ensures SameSegments([OffCurveAt(a1), OffCurveAt(q1.pt), q1.(seg := Curve)] + t1,
                         [OffCurveAt(a2), OffCurveAt(q2.pt), q2.(seg := Curve)] + t2)
  {
    SameSegmentsAppend([OffCurveAt(a1), OffCurveAt(q1.pt), q1.(seg := Curve)], t1,
                       [OffCurveAt(a2), OffCurveAt(q2.pt), q2.(seg := Curve)], t2);
  }

  lemma SegmentTypesSame(p1: Contour, p2: Contour)
    requires SegmentTypes(p1) == SegmentTypes(p2)
    ensures SameSegments(p1, p2)
  {
    forall k | 0 <= k < |p1|
      ensures p1[k].seg == p2[k].seg
    {
      assert SegmentTypes(p1)[k] == SegmentTypes(p2)[k];
    }
  }

  /** Normalising commutes with glyph ± glyph on contours of one structure: normalising the
      combined contour gives the combination of the normalised contours. */
  lemma NormalizeCombine(op: BinaryOp, p1: Contour, p2: Contour)
    requires Normalizable(p1) && SegmentTypes(p1) == SegmentTypes(p2)
    ensures Normalizable(p2) && Normalizable(CombineContour(op, p1, p2))
    ensures |Normalize(p1)| == |Normalize(p2)|
    ensures Normalize(CombineContour(op, p1, p2)) == CombineContour(op, Normalize(p1), Normalize(p2))
  {
    SegmentTypesSame(p1, p2);
    if p1[0].seg == Line {
      NormalizeCombineLead(op, p1, p2);
    } else {
      NormalizeCombineNoLead(op, p1, p2);
    }
  }

  lemma NormalizeCombineNoLead(op: BinaryOp, p1: Contour, p2: Contour)
    requires Normalizable(p1) && SameSegments(p1, p2) && p1[0].seg != Line
    ensures Normalizable(p2) && Normalizable(CombineContour(op, p1, p2))
    ensures |Normalize(p1)| == |Normalize(p2)|
    ensures Normalize(CombineContour(op, p1, p2)) == CombineContour(op, Normalize(p1), Normalize(p2))
  {
    var q1, q2 := p1[0], p2[0];
    var c := CombineContour(op, p1, p2);
    assert c[1..] == CombineContour(op, p1[1..], p2[1..]);
    assert SameSegments(p1[1..], p2[1..]);
    var n1, n2 := if q1.seg == OffCurve then None else Some(q1.pt), if q1.seg == OffCurve then None else Some(q2.pt);
    NormalizeRestCombine(op, p1[1..], p2[1..], n1, n2);
    assert CombineOpt(op, n1, n2) == if q1.seg == OffCurve then None else Some(c[0].pt);
    CombineCons(op, q1, NormalizeRest(p1[1..], n1), q2, NormalizeRest(p2[1..], n2));
  }

  lemma NormalizeCombineLead(op: BinaryOp, p1: Contour, p2: Contour)
    requires Normalizable(p1) && SameSegments(p1, p2) && p1[0].seg == Line
    ensures Normalizable(p2) && Normalizable(CombineContour(op, p1, p2))
    ensures |Normalize(p1)| == |Normalize(p2)|
    ensures Normalize(CombineContour(op, p1, p2)) == CombineContour(op, Normalize(p1), Normalize(p2))
  {
    var q1, q2 := p1[0], p2[0];
    var l1, l2 := p1[1..] + LeadLinePair(p1), p2[1..] + LeadLinePair(p2);
    LeadLineCombine(op, p1, p2);
    NormalizeRestCombine(op, l1, l2, Some(q1.pt), Some(q2.pt));
    var lead1, lead2 := PointRec(Curve, q1.pt, false, q1.name), PointRec(Curve, q2.pt, false, q2.name);
    CombineCons(op, lead1, NormalizeRest(l1, Some(q1.pt)), lead2, NormalizeRest(l2, Some(q2.pt)));
  }

  /** The wrap-around controls of a leading line, combined, are those of the combined contour. */
  lemma LeadLineCombine(op: BinaryOp, p1: Contour, p2: Contour)
    requires SameSegments(p1, p2) && p1 != [] && p1[0].seg == Line
    ensures SameSegments(p1[1..] + LeadLinePair(p1), p2[1..] + LeadLinePair(p2))
    ensures CombineContour(op, p1, p2)[1..] + LeadLinePair(CombineContour(op, p1, p2))
      == CombineContour(op, p1[1..] + LeadLinePair(p1), p2[1..] + LeadLinePair(p2))
  {
    LeadLineSegments(p1, p2);
    var c := CombineContour(op, p1, p2);
    assert c[1..] == CombineContour(op, p1[1..], p2[1..]);
    CombineAppend(op, p1[1..], LeadLinePair(p1), p2[1..], LeadLinePair(p2));
    LeadPairCombine(op, p1, p2);
  }

  lemma LeadLineSegments(p1: Contour, p2: Contour)
    requires SameSegments(p1, p2) && p1 != [] && p1[0].seg == Line
    ensures SameSegments(p1[1..] + LeadLinePair(p1), p2[1..] + LeadLinePair(p2))
  {
    var pair1, pair2 := LeadLinePair(p1), LeadLinePair(p2);
    assert SameSegments(p1[1..], p2[1..]);
    assert SameSegments(pair1, pair2);
    SameSegmentsAppend(p1[1..], pair1, p2[1..], pair2);
  }

  lemma LeadPairCombine(op: BinaryOp, p1: Contour, p2: Contour)
    requires |p1| == |p2| && p1 != [] && p1[0].seg == Line && p2[0].seg == Line
    ensures LeadLinePair(CombineContour(op, p1, p2)) == CombineContour(op, LeadLinePair(p1), LeadLinePair(p2))
  {
    var c := CombineContour(op, p1, p2);
    var m := |p1| - 1;
    var pair := CombineContour(op, LeadLinePair(p1), LeadLinePair(p2));
    assert c[m].pt == CombinePt(op, p1[m].pt, p2[m].pt) && c[0].pt == CombinePt(op, p1[0].pt, p2[0].pt);
    assert pair[0] == OffCurveAt(c[m].pt) && pair[1] == OffCurveAt(c[0].pt);
  }

  lemma SameSegmentsAppend(a1: Contour, b1: Contour, a2: Contour, b2: Contour)
    requires SameSegments(a1, a2) && SameSegments(b1, b2)
    ensures SameSegments(a1 + b1, a2 + b2)
  {
    forall k | 0 <= k < |a1| + |b1|
      ensures (a1 + b1)[k].seg == (a2 + b2)[k].seg
    {
      if k >= |a1| {
        assert (a1 + b1)[k] == b1[k - |a1|] && (a2 + b2)[k] == b2[k - |a1|];
      }
    }
  }

  /** Line segments put through glyph ± glyph come back as line segments: filtering the
      combination of two normalised contours gives the combination of the contours themselves,
      as long as the filter has nothing of its own to collapse there. */
  lemma CombineRoundTrip(op: BinaryOp, p1: Contour, p2: Contour)
    requires Normalizable(p1) && LinesFollowOnCurves(p1) && SegmentTypes(p1) == SegmentTypes(p2)
    requires Compact(CombineContour(op, p1, p2))
    ensures Normalizable(p2) && |Normalize(p1)| == |Normalize(p2)|
    ensures Filter(CombineContour(op, Normalize(p1), Normalize(p2))) == LeadSmoothCleared(CombineContour(op, p1, p2))
  {
    var c := CombineContour(op, p1, p2);
    NormalizeCombine(op, p1, p2);
    assert LinesFollowOnCurves(c) by {
      forall i | 0 <= i < |c| && c[i].seg == Line
        ensures c[if i == 0 then |c| - 1 else i - 1].seg != OffCurve
      {
        assert p1[i].seg == Line;
      }
    }
    RoundTrip.RoundTrip(c);
  }

  /** Two lines drawn, added to themselves and filtered: the lines come back, twice as long. */
  lemma LineRoundTripThroughMath()
    ensures var c := [PointRec(Line, Pt(0.0, 0.0), false, None), PointRec(Line, Pt(10.0, 0.0), false, None)];
      && Normalizable(c)
      && Filter(CombineContour(Plus, Normalize(c), Normalize(c)))
         == [PointRec(Line, Pt(0.0, 0.0), false, None), PointRec(Line, Pt(20.0, 0.0), false, None)]
  {
    var c := [PointRec(Line, Pt(0.0, 0.0), false, None), PointRec(Line, Pt(10.0, 0.0), false, None)];
    var d := [PointRec(Line, Pt(0.0, 0.0), false, None), PointRec(Line, Pt(20.0, 0.0), false, None)];
    assert CombineContour(Plus, c, c) == d;
    assert LinesFollowOnCurves(c);
    assert Compact(d) by {
      assert !LeadCollapses(d);
      assert !RedundantAt(d, 1);
    }
    CombineRoundTrip(Plus, c, c);
    assert LeadSmoothCleared(d) == d;
  }

  // ------------------------------------------------ glyph × factor

  function ScaleOpt(op: ScaleOp, a: Option<Pt>, fx: real, fy: real): Option<Pt>
    requires CanScale(op, fx, fy)
  {
    if a.Some? then Some(ScalePt(op, a.value, fx, fy)) else None
  }

  lemma ScaleCons(op: ScaleOp, h: PointRec, t: Contour, fx: real, fy: real)
    requires CanScale(op, fx, fy)
    ensures ScaleContour(op, [h] + t, fx, fy) == [h.(pt := ScalePt(op, h.pt, fx, fy))] + ScaleContour(op, t, fx, fy)
  {
    assert ([h] + t)[1..] == t;
  }

  lemma ScaleLineStep(op: ScaleOp, a: Pt, q: PointRec, t: Contour, fx: real, fy: real)
    requires CanScale(op, fx, fy)
    ensures ScaleContour(op, [OffCurveAt(a), OffCurveAt(q.pt), q.(seg := Curve)] + t, fx, fy)
      == [OffCurveAt(ScalePt(op, a, fx, fy)), OffCurveAt(ScalePt(op, q.pt, fx, fy)),
          q.(pt := ScalePt(op, q.pt, fx, fy)).(seg := Curve)] + ScaleContour(op, t, fx, fy)
  {
    var u := [q.(seg := Curve)] + t;
    var v := [OffCurveAt(q.pt)] + u;
    assert [OffCurveAt(a), OffCurveAt(q.pt), q.(seg := Curve)] + t == [OffCurveAt(a)] + v;
    ScaleCons(op, OffCurveAt(a), v, fx, fy);
    ScaleCons(op, OffCurveAt(q.pt), u, fx, fy);
    ScaleCons(op, q.(seg := Curve), t, fx, fy);
  }

  lemma {:induction false} NormalizeRestScale(op: ScaleOp, r: Contour, prev: Option<Pt>, fx: real, fy: real)
    requires CanScale(op, fx, fy)
    requires prev.Some? || FirstOnCurveNotLine(r)
    ensures ScaleOpt(op, prev, fx, fy).Some? || FirstOnCurveNotLine(ScaleContour(op, r, fx, fy))
    ensures NormalizeRest(ScaleContour(op, r, fx, fy), ScaleOpt(op, prev, fx, fy))
      == ScaleContour(op, NormalizeRest(r, prev), fx, fy)
    decreases |r|
  {
    if r != [] {
      var q := r[0];
      var s := ScaleContour(op, r, fx, fy);
      assert s[1..] == ScaleContour(op, r[1..], fx, fy);
      if q.seg == OffCurve {
        NormalizeRestScale(op, r[1..], prev, fx, fy);
        ScaleCons(op, q, NormalizeRest(r[1..], prev), fx, fy);
      } else if q.seg == Line {
        NormalizeRestScale(op, r[1..], Some(q.pt), fx, fy);
        ScaleLineStep(op, prev.value, q, NormalizeRest(r[1..], Some(q.pt)), fx, fy);
      } else {
        NormalizeRestScale(op, r[1..], Some(q.pt), fx, fy);
        ScaleCons(op, q, NormalizeRest(r[1..], Some(q.pt)), fx, fy);
      }
    }
  }

  /** Normalising commutes with glyph × factor: normalising the scaled contour gives the
      normalised contour scaled. */
  lemma NormalizeScale(op: ScaleOp, p: Contour, fx: real, fy: real)
    requires Normalizable(p) && CanScale(op, fx, fy)
    ensures Normalizable(ScaleContour(op, p, fx, fy))
    ensures Normalize(ScaleContour(op, p, fx, fy)) == ScaleContour(op, Normalize(p), fx, fy)
  {
    var q := p[0];
    var s := ScaleContour(op, p, fx, fy);
    assert s[1..] == ScaleContour(op, p[1..], fx, fy);
    if q.seg == Line {
      var l := p[1..] + LeadLinePair(p);
      LeadLineScale(op, p, fx, fy);
      NormalizeRestScale(op, l, Some(q.pt), fx, fy);
      ScaleCons(op, PointRec(Curve, q.pt, false, q.name), NormalizeRest(l, Some(q.pt)), fx, fy);
    } else {
      var prev := if q.seg == OffCurve then None else Some(q.pt);
      NormalizeRestScale(op, p[1..], prev, fx, fy);
      ScaleCons(op, q, NormalizeRest(p[1..], prev), fx, fy);
    }
  }

  /** The wrap-around controls of a leading line, scaled, are those of the scaled contour. */
  lemma LeadLineScale(op: ScaleOp, p: Contour, fx: real, fy: real)
    requires p != [] && p[0].seg == Line && CanScale(op, fx, fy)
    ensures ScaleContour(op, p, fx, fy)[1..] + LeadLinePair(ScaleContour(op, p, fx, fy))
      == ScaleContour(op, p[1..] + LeadLinePair(p), fx, fy)
  {
    var s := ScaleContour(op, p, fx, fy);
    assert s[1..] == ScaleContour(op, p[1..], fx, fy);
    ScaleAppend(op, p[1..], LeadLinePair(p), fx, fy);
    LeadPairScale(op, p, fx, fy);
  }

  lemma LeadPairScale(op: ScaleOp, p: Contour, fx: real, fy: real)
    requires p != [] && p[0].seg == Line && CanScale(op, fx, fy)
    ensures LeadLinePair(ScaleContour(op, p, fx, fy)) == ScaleContour(op, LeadLinePair(p), fx, fy)
  {
    var s := ScaleContour(op, p, fx, fy);
    var m := |p| - 1;
    var pair := ScaleContour(op, LeadLinePair(p), fx, fy);
    assert s[m].pt == ScalePt(op, p[m].pt, fx, fy) && s[0].pt == ScalePt(op, p[0].pt, fx, fy);
    assert pair[0] == OffCurveAt(s[m].pt) && pair[1] == OffCurveAt(s[0].pt);
  }

  lemma ScaleAppend(op: ScaleOp, a: Contour, b: Contour, fx: real, fy: real)
    requires CanScale(op, fx, fy)
    ensures ScaleContour(op, a + b, fx, fy) == ScaleContour(op, a, fx, fy) + ScaleContour(op, b, fx, fy)
  {
    var l, r := ScaleContour(op, a + b, fx, fy), ScaleContour(op, a, fx, fy) + ScaleContour(op, b, fx, fy);
    forall k | 0 <= k < |l|
      ensures l[k] == r[k]
    {
      if k < |a| {
        assert (a + b)[k] == a[k];
      } else {
        assert (a + b)[k] == b[k - |a|];
      }
    }
  }

  /** With nonzero factors two points scale to the same point only when they are the same. */
  lemma ScalePtInjective(op: ScaleOp, a: Pt, b: Pt, fx: real, fy: real)
    requires fx != 0.0 && fy != 0.0
    ensures ScalePt(op, a, fx, fy) == ScalePt(op, b, fx, fy) <==> a == b
  {
    if ScalePt(op, a, fx, fy) == ScalePt(op, b, fx, fy) {
      match op {
        case Times =>
          ScaleCancels(a.x, fx);
          ScaleCancels(b.x, fx);
          ScaleCancels(a.y, fy);
          ScaleCancels(b.y, fy);
        case Over =>
          assert a.x == (a.x / fx) * fx && b.x == (b.x / fx) * fx;
          assert a.y == (a.y / fy) * fy && b.y == (b.y / fy) * fy;
      }
    }
  }

  /** Scaling by nonzero factors neither creates nor removes a redundant curve. */
  lemma ScaleKeepsCompact(op: ScaleOp, p: Contour, fx: real, fy: real)
    requires fx != 0.0 && fy != 0.0 && Compact(p)
    ensures Compact(ScaleContour(op, p, fx, fy))
  {
    var s := ScaleContour(op, p, fx, fy);
    forall i, j | 0 <= i < |p| && 0 <= j < |p|
      ensures s[i].pt == s[j].pt <==> p[i].pt == p[j].pt
    {
      ScalePtInjective(op, p[i].pt, p[j].pt, fx, fy);
    }
    assert !LeadCollapses(s) by {
      if |p| >= 3 {
        assert !LeadCollapses(p);
      }
    }
    forall k | 0 < k < |s|
      ensures !RedundantAt(s, k)
    {
      assert !RedundantAt(p, k);
    }
  }

  /** Line segments put through glyph × factor come back as line segments: filtering the scaled
      normalised contour gives the scaled contour. */
  lemma ScaleRoundTrip(op: ScaleOp, p: Contour, fx: real, fy: real)
    requires Normalizable(p) && LinesFollowOnCurves(p) && Compact(p)
    requires fx != 0.0 && fy != 0.0
    ensures Filter(ScaleContour(op, Normalize(p), fx, fy)) == LeadSmoothCleared(ScaleContour(op, p, fx, fy))
  {
    var s := ScaleContour(op, p, fx, fy);
    NormalizeScale(op, p, fx, fy);
    ScaleKeepsCompact(op, p, fx, fy);
    assert LinesFollowOnCurves(s) by {
      forall i | 0 <= i < |s| && s[i].seg == Line
        ensures s[if i == 0 then |s| - 1 else i - 1].seg != OffCurve
      {
        assert p[i].seg == Line;
      }
    }
    RoundTrip.RoundTrip(s);
  }
}
