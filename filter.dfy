/** The redundancy filter (FilterRedundantPointPen): a curve point whose two controls sit
    exactly on the previous on-curve point and on itself is drawn as a line without them. */
module RedundancyFilter {
  import opened Types

  /** The flush's test on a curve point: exactly two buffered controls, the first at the
      previous on-curve coordinate, the second at the point itself. */
  predicate Collapses(q: PointRec, prev: Option<Pt>, offs: seq<PointRec>)
  {
    q.seg == Curve && |offs| == 2 && prev == Some(offs[0].pt) && offs[1].pt == q.pt
  }

  /** The test on the first point when it is a curve: the contour ends with exactly two
      off-curves, the first at the last on-curve coordinate, the second at the first point. */
  predicate LeadRedundant(p: seq<PointRec>)
  {
    && |p| >= 3
    && p[|p| - 1].seg == OffCurve && p[|p| - 2].seg == OffCurve && p[|p| - 3].seg != OffCurve
    && p[|p| - 2].pt == p[|p| - 3].pt && p[|p| - 1].pt == p[0].pt
  }

  /** The points after the first, given the previous on-curve coordinate and the buffered controls. */
  function FilterRest(rest: seq<PointRec>, prev: Option<Pt>, offs: seq<PointRec>): seq<PointRec>
    decreases |rest|
  {
    if rest == [] then offs
    else
      var q := rest[0];
      if q.seg == OffCurve then FilterRest(rest[1..], prev, offs + [q])
      else if Collapses(q, prev, offs) then [q.(seg := Line)] + FilterRest(rest[1..], Some(q.pt), [])
      else offs + [q] + FilterRest(rest[1..], Some(q.pt), [])
  }

  /** The points the filter draws for one contour. */
  function Filter(p: seq<PointRec>): seq<PointRec>
    requires p != []
  {
    var q := p[0];
    if q.seg == OffCurve then FilterRest(p[1..], None, [q])
    else if q.seg == Curve && LeadRedundant(p) then [q.(seg := Line)] + FilterRest(p[1..|p| - 2], Some(q.pt), [])
    else [q] + FilterRest(p[1..], Some(q.pt), [])
  }

  // ------------------------------------------------ reference definition, point by point

  /** Curve point k (k > 0) is redundant: exactly two controls before it, after an on-curve
      point, at that point's coordinate and at its own. */
  predicate RedundantAt(p: seq<PointRec>, k: int)
  {
    && 3 <= k < |p| && p[k].seg == Curve
    && p[k - 1].seg == OffCurve && p[k - 2].seg == OffCurve && p[k - 3].seg != OffCurve
    && p[k - 3].pt == p[k - 2].pt && p[k - 1].pt == p[k].pt
  }

  /** The first point is a redundant curve (wrap-around case). */
  predicate LeadCollapses(p: seq<PointRec>)
  {
    p != [] && p[0].seg == Curve && LeadRedundant(p)
  }

  /** What the filter draws for point k of the contour, judged on the contour alone;
      `lead` says whether the first point collapses. */
  function Emit(p: seq<PointRec>, lead: bool, k: nat): seq<PointRec>
    requires k < |p|
  {
    if p[k].seg == OffCurve then
      if RedundantAt(p, k + 1) || RedundantAt(p, k + 2) || (lead && k + 2 >= |p|) then [] else [p[k]]
    else if (k == 0 && lead) || RedundantAt(p, k) then [p[k].(seg := Line)]
    else [p[k]]
  }

  function EmitFrom(p: seq<PointRec>, lead: bool, k: nat): seq<PointRec>
    requires k <= |p|
    decreases |p| - k
  {
    if k == |p| then [] else Emit(p, lead, k) + EmitFrom(p, lead, k + 1)
  }

  /** A contour with no redundant curve point. */
  predicate Compact(p: seq<PointRec>)
  {
    !LeadCollapses(p) && forall k :: 0 < k < |p| ==> !RedundantAt(p, k)
  }

  /** The filter's state before point i: the controls buffered since index j, and the
      previous on-curve coordinate (the point before j, or None when j is 0). */
  predicate ScanState(p: seq<PointRec>, i: int, j: int, prev: Option<Pt>)
  {
    && 1 <= i <= |p| && 0 <= j <= i
    && (forall k :: j <= k < i ==> p[k].seg == OffCurve)
    && (prev.None? ==> j == 0)
    && (prev.Some? ==> j >= 1 && p[j - 1].seg != OffCurve && prev == Some(p[j - 1].pt))
  }

  lemma FilterRestUnfold(rest: seq<PointRec>, prev: Option<Pt>, offs: seq<PointRec>)
    requires rest != []
    ensures var q := rest[0];
      FilterRest(rest, prev, offs) ==
        if q.seg == OffCurve then FilterRest(rest[1..], prev, offs + [q])
        else if Collapses(q, prev, offs) then [q.(seg := Line)] + FilterRest(rest[1..], Some(q.pt), [])
        else offs + [q] + FilterRest(rest[1..], Some(q.pt), [])
  {
  }

  lemma {:induction false} FilterRestEmits(p: seq<PointRec>, i: int, j: int, prev: Option<Pt>)
    requires ScanState(p, i, j, prev)
    ensures FilterRest(p[i..], prev, p[j..i]) == EmitFrom(p, false, j)
    decreases |p| - i
  {
    if i == |p| {
      EmitOffRun(p, j, i);
    } else {
      var q := p[i];
      assert p[i..][1..] == p[i + 1..];
      FilterRestUnfold(p[i..], prev, p[j..i]);
      if q.seg == OffCurve {
        assert p[j..i] + [q] == p[j..i + 1];
        FilterRestEmits(p, i + 1, j, prev);
      } else {
        FilterRestEmits(p, i + 1, i + 1, Some(q.pt));
        assert p[i + 1..i + 1] == [];
        FilterEmitsOnCurve(p, i, j, prev);
      }
    }
  }

  /** The step at an on-curve point, given what the filter draws after it. */
  lemma FilterEmitsOnCurve(p: seq<PointRec>, i: int, j: int, prev: Option<Pt>)
    requires ScanState(p, i, j, prev) && i < |p| && p[i].seg != OffCurve
    requires FilterRest(p[i + 1..], Some(p[i].pt), []) == EmitFrom(p, false, i + 1)
    ensures FilterRest(p[i..], prev, p[j..i]) == EmitFrom(p, false, j)
  {
    var q := p[i];
    assert p[i..][1..] == p[i + 1..];
    FilterRestUnfold(p[i..], prev, p[j..i]);
    CollapsesIff(p, i, j, prev);
    if RedundantAt(p, i) {
      EmitCollapsed(p, i);
    } else {
      EmitKept(p, j, i);
    }
  }

  /** The flush's test, made on the buffered controls, is the point-by-point test. */
  lemma CollapsesIff(p: seq<PointRec>, i: int, j: int, prev: Option<Pt>)
    requires ScanState(p, i, j, prev) && i < |p| && p[i].seg != OffCurve
    ensures Collapses(p[i], prev, p[j..i]) <==> RedundantAt(p, i)
  {
    if Collapses(p[i], prev, p[j..i]) {
      assert j == i - 2;
      assert RedundantAt(p, i);
    }
    if RedundantAt(p, i) {
      assert p[i - 3].seg != OffCurve;
      assert j == i - 2;
    }
  }

  /** A redundant curve is drawn as a line and its two controls are not drawn. */
  lemma EmitCollapsed(p: seq<PointRec>, i: int)
    requires RedundantAt(p, i)
    ensures EmitFrom(p, false, i - 2) == [p[i].(seg := Line)] + EmitFrom(p, false, i + 1)
  {
    assert !RedundantAt(p, i - 1) && !RedundantAt(p, i + 1);
    assert Emit(p, false, i - 2) == [];
    assert Emit(p, false, i - 1) == [];
    assert Emit(p, false, i) == [p[i].(seg := Line)];
    assert EmitFrom(p, false, i - 2) == Emit(p, false, i - 2) + EmitFrom(p, false, i - 1);
    assert EmitFrom(p, false, i - 1) == Emit(p, false, i - 1) + EmitFrom(p, false, i);
    assert EmitFrom(p, false, i) == Emit(p, false, i) + EmitFrom(p, false, i + 1);
  }

  /** Controls before an on-curve point that is not redundant are drawn as they are. */
  lemma EmitKept(p: seq<PointRec>, j: nat, i: nat)
    requires j <= i < |p| && p[i].seg != OffCurve && !RedundantAt(p, i)
    requires forall k :: j <= k < i ==> p[k].seg == OffCurve
    ensures EmitFrom(p, false, j) == p[j..i] + [p[i]] + EmitFrom(p, false, i + 1)
  {
    EmitFromSplit(p, j, i);
    EmitKeptRun(p, j, i);
    assert Emit(p, false, i) == [p[i]];
  }

  lemma {:induction false} EmitFromSplit(p: seq<PointRec>, j: nat, i: nat)
    requires j <= i <= |p|
    ensures EmitFrom(p, false, j) == EmitRange(p, j, i) + EmitFrom(p, false, i)
    decreases i - j
  {
    if j < i {
      EmitFromSplit(p, j + 1, i);
    }
  }

  function EmitRange(p: seq<PointRec>, j: nat, i: nat): seq<PointRec>
    requires j <= i <= |p|
    decreases i - j
  {
    if j == i then [] else Emit(p, false, j) + EmitRange(p, j + 1, i)
  }

  lemma {:induction false} EmitKeptRun(p: seq<PointRec>, j: nat, i: nat)
    requires j <= i < |p| && p[i].seg != OffCurve && !RedundantAt(p, i)
    requires forall k :: j <= k < i ==> p[k].seg == OffCurve
    ensures EmitRange(p, j, i) == p[j..i]
    decreases i - j
  {
    if j < i {
      assert !RedundantAt(p, j + 1) && !RedundantAt(p, j + 2);
      EmitKeptRun(p, j + 1, i);
      assert p[j..i] == [p[j]] + p[j + 1..i];
    }
  }

  /** Trailing controls with nothing after them are drawn as is. */
  lemma {:induction false} EmitOffRun(p: seq<PointRec>, j: int, i: int)
    requires 0 <= j <= i == |p|
    requires forall k :: j <= k < i ==> p[k].seg == OffCurve
    ensures EmitFrom(p, false, j) == p[j..]
    decreases i - j
  {
    if j < i {
      EmitOffRun(p, j + 1, i);
      assert p[j..] == [p[j]] + p[j + 1..];
    }
  }

  /** The reference definition of the whole contour's output. */
  function FilterReference(p: seq<PointRec>): seq<PointRec>
  {
    EmitFrom(p, LeadCollapses(p), 0)
  }

  /** Truncating the two wrap-around controls of a collapsing first point. */
  lemma {:induction false} EmitTruncated(p: seq<PointRec>, k: nat)
    requires LeadCollapses(p) && 1 <= k <= |p| - 2
    ensures EmitFrom(p[..|p| - 2], false, k) == EmitFrom(p, true, k)
    decreases |p| - k
  {
    var n := |p|;
    var q := p[..n - 2];
    if k == n - 2 {
      assert Emit(p, true, n - 2) == [] && Emit(p, true, n - 1) == [];
      assert EmitFrom(p, true, n - 2) == Emit(p, true, n - 2) + (Emit(p, true, n - 1) + EmitFrom(p, true, n));
    } else {
      EmitTruncated(p, k + 1);
      assert RedundantAt(q, k + 1) == RedundantAt(p, k + 1);
      assert RedundantAt(q, k + 2) == RedundantAt(p, k + 2);
      assert RedundantAt(q, k) == RedundantAt(p, k);
      assert Emit(q, false, k) == Emit(p, true, k);
    }
  }

  /** Exact collapse only: the filter draws every point as the reference definition says. A
      curve point is drawn as a line, without its two controls, exactly when those controls sit
      on the previous on-curve point and on itself (for the first point, the controls at the end
      of the contour); every other point is drawn unchanged and in order. */
  lemma FilterMatchesReference(p: seq<PointRec>)
    requires p != []
    ensures Filter(p) == FilterReference(p)
  {
    var q := p[0];
    var lead := LeadCollapses(p);
    if q.seg == OffCurve {
      assert p[0..1] == [q];
      FilterRestEmits(p, 1, 0, None);
    } else if lead {
      var t := p[..|p| - 2];
      assert t[1..] == p[1..|p| - 2];
      assert t[1..1] == [];
      FilterRestEmits(t, 1, 1, Some(q.pt));
      EmitTruncated(p, 1);
      assert Emit(p, true, 0) == [q.(seg := Line)];
    } else {
      assert p[1..1] == [];
      FilterRestEmits(p, 1, 1, Some(q.pt));
      assert Emit(p, false, 0) == [q];
    }
  }

  lemma {:induction false} EmitFromCompact(p: seq<PointRec>, k: nat)
    requires Compact(p) && k <= |p|
    ensures EmitFrom(p, false, k) == p[k..]
    decreases |p| - k
  {
    if k < |p| {
      EmitFromCompact(p, k + 1);
      assert !RedundantAt(p, k) && !RedundantAt(p, k + 1) && !RedundantAt(p, k + 2);
      assert Emit(p, false, k) == [p[k]];
      assert p[k..] == [p[k]] + p[k + 1..];
    }
  }

  lemma {:induction false} EmitFromShorter(p: seq<PointRec>, lead: bool, k: nat, m: nat)
    requires k <= m < |p| && Emit(p, lead, m) == []
    ensures |EmitFrom(p, lead, k)| < |p| - k
    decreases |p| - k
  {
    if k < m {
      EmitFromShorter(p, lead, k + 1, m);
    } else {
      EmitFromAtMost(p, lead, k + 1);
    }
  }

  lemma {:induction false} EmitFromAtMost(p: seq<PointRec>, lead: bool, k: nat)
    requires k <= |p|
    ensures |EmitFrom(p, lead, k)| <= |p| - k
    decreases |p| - k
  {
    if k < |p| {
      EmitFromAtMost(p, lead, k + 1);
    }
  }

  /** The filter leaves a contour unchanged exactly when the contour has no redundant curve point. */
  lemma FilterFixpointIff(p: seq<PointRec>)
    requires p != []
    ensures Filter(p) == p <==> Compact(p)
  {
    FilterMatchesReference(p);
    if Compact(p) {
      EmitFromCompact(p, 0);
    } else {
      var lead := LeadCollapses(p);
      if lead {
        assert Emit(p, lead, |p| - 1) == [];
        EmitFromShorter(p, lead, 0, |p| - 1);
      } else {
        var m :| 0 < m < |p| && RedundantAt(p, m);
        assert Emit(p, lead, m - 1) == [];
        EmitFromShorter(p, lead, 0, m - 1);
      }
    }
  }

  /** The calls the filter makes on the point pen it draws into. */
  datatype PenEvent =
    | BeginPathEvent
    | AddPointEvent(point: PointRec)
    | EndPathEvent
    | AddComponentEvent(baseGlyph: string, transformation: Transform, identifier: Option<string>)

  function PointEvents(s: seq<PointRec>): (r: seq<PenEvent>)
    ensures |r| == |s| && forall k :: 0 <= k < |s| ==> r[k] == AddPointEvent(s[k])
  {
    if s == [] then [] else [AddPointEvent(s[0])] + PointEvents(s[1..])
  }

  /** The first-point test of the flush: scans back over the trailing controls to the last
      on-curve point and compares. */
  method LeadTest(points: seq<PointRec>) returns (redundant: bool)
    requires points != [] && points[0].seg == Curve
    ensures redundant == LeadRedundant(points)
  {
    var n := |points|;
    var testOffCurves: seq<Pt> := [];
    var k := 0;
    while points[n - 1 - k].seg == OffCurve
      invariant 0 <= k < n
      invariant |testOffCurves| == k
      invariant forall m :: n - k <= m < n ==> points[m].seg == OffCurve
      invariant forall m :: 0 <= m < k ==> testOffCurves[m] == points[n - 1 - m].pt
      decreases n - 1 - k
    {
      testOffCurves := testOffCurves + [points[n - 1 - k].pt];
      assert testOffCurves[k] == points[n - 1 - k].pt;
      k := k + 1;
    }
    var lastPoint := points[n - 1 - k].pt;
    if k > 2 {
      assert points[n - 3].seg == OffCurve;
    }
    redundant := |testOffCurves| == 2 && testOffCurves[1] == lastPoint && testOffCurves[0] == points[0].pt;
  }

  /** The flush's handling of the first point: what is drawn so far, the buffered controls,
      the previous on-curve coordinate and the points still to scan (without the two
      wrap-around controls when the first point collapses). */
  method FilterFirstPoint(points: seq<PointRec>)
    returns (pointsToDraw: seq<PointRec>, offCurves: seq<PointRec>, prevOnCurve: Option<Pt>, pts: seq<PointRec>)
    requires points != []
    ensures 1 <= |pts|
    ensures pointsToDraw + FilterRest(pts[1..], prevOnCurve, offCurves) == Filter(points)
  {
    pts := points;
    prevOnCurve := None;
    offCurves := [];
    pointsToDraw := [];
    var first := pts[0];
    if first.seg == OffCurve {
      offCurves := [first];
    } else {
      var seg := first.seg;
      if seg == Curve {
        var redundant := LeadTest(pts);
        if redundant {
          seg := Line;
          pts := pts[..|pts| - 2];
        }
      }
      pointsToDraw := [first.(seg := seg)];
      prevOnCurve := Some(first.pt);
    }
  }

  /** The flush loop: the points the filter draws for one buffered contour. */
  method FilterContour(points: seq<PointRec>) returns (pointsToDraw: seq<PointRec>)
    requires points != []
    ensures pointsToDraw == Filter(points)
  {
    var pts, prevOnCurve, offCurves;
    pointsToDraw, offCurves, prevOnCurve, pts := FilterFirstPoint(points);
    var i := 1;
    while i < |pts|
      invariant 1 <= i <= |pts|
      invariant pointsToDraw + FilterRest(pts[i..], prevOnCurve, offCurves) == Filter(points)
    {
      assert pts[i..][1..] == pts[i + 1..];
      pointsToDraw, offCurves, prevOnCurve := FilterStep(pts[i..], pointsToDraw, offCurves, prevOnCurve);
      i := i + 1;
    }
    assert pts[i..] == [];
    pointsToDraw := pointsToDraw + offCurves;
  }

  /** One pass of the flush loop over the next point: buffer an off-curve, or draw the buffered
      controls and the on-curve point, collapsing a redundant curve into a line. */
  method FilterStep(rest: seq<PointRec>, drawn: seq<PointRec>, offs: seq<PointRec>, prev: Option<Pt>)
    returns (drawn': seq<PointRec>, offs': seq<PointRec>, prev': Option<Pt>)
    requires rest != []
    ensures drawn' + FilterRest(rest[1..], prev', offs') == drawn + FilterRest(rest, prev, offs)
  {
    var q := rest[0];
    FilterRestUnfold(rest, prev, offs);
    if q.seg == OffCurve {
      drawn', offs', prev' := drawn, offs + [q], prev;
    } else {
      var seg := q.seg;
      var controls := offs;
      if seg == Curve && |offs| == 2 && prev == Some(offs[0].pt) && offs[1].pt == q.pt {
        controls := [];
        seg := Line;
      }
      drawn', offs', prev' := drawn + controls + [q.(seg := seg)], [], Some(q.pt);
      assert drawn' + FilterRest(rest[1..], prev', offs') == drawn + (controls + [q.(seg := seg)] + FilterRest(rest[1..], prev', offs'));
    }
  }

  /** The filtering point pen; `drawn` records what it passes on to the pen it wraps. */
  class FilterRedundantPointPen {
    var points: seq<PointRec>
    var drawn: seq<PenEvent>

    constructor ()
      ensures points == [] && drawn == []
    {
      points := [];
      drawn := [];
    }

    method BeginPath()
      modifies this
      ensures points == [] && drawn == old(drawn) + [BeginPathEvent]
    {
      points := [];
      drawn := drawn + [BeginPathEvent];
    }

    method AddPoint(pt: Pt, seg: SegmentType, smooth: bool, name: Option<string>)
      modifies this
      ensures points == old(points) + [PointRec(seg, pt, smooth, name)] && drawn == old(drawn)
    {
      points := points + [PointRec(seg, pt, smooth, name)];
    }

    method EndPath()
      requires points != []
      modifies this
      ensures drawn == old(drawn) + PointEvents(Filter(old(points))) + [EndPathEvent]
      ensures points == old(points)
    {
      FlushContour();
      drawn := drawn + [EndPathEvent];
    }

    method AddComponent(baseGlyph: string, transformation: Transform, identifier: Option<string>)
      modifies this
      ensures drawn == old(drawn) + [AddComponentEvent(baseGlyph, transformation, identifier)]
      ensures points == old(points)
    {
      drawn := drawn + [AddComponentEvent(baseGlyph, transformation, identifier)];
    }

    /** Filters the buffered contour and draws the result point by point. */
    method FlushContour()
      requires points != []
      modifies this
      ensures drawn == old(drawn) + PointEvents(Filter(old(points)))
      ensures points == old(points)
    {
      var pointsToDraw := FilterContour(points);
      var d := 0;
      while d < |pointsToDraw|
        invariant 0 <= d <= |pointsToDraw|
        invariant drawn == old(drawn) + PointEvents(pointsToDraw[..d])
        invariant points == old(points)
      {
        assert pointsToDraw[..d + 1] == pointsToDraw[..d] + [pointsToDraw[d]];
        PointEventsAppend(pointsToDraw[..d], [pointsToDraw[d]]);
        drawn := drawn + [AddPointEvent(pointsToDraw[d])];
        d := d + 1;
      }
      assert pointsToDraw[..d] == pointsToDraw;
    }
  }

  lemma PointEventsAppend(a: seq<PointRec>, b: seq<PointRec>)
    ensures PointEvents(a + b) == PointEvents(a) + PointEvents(b)
  {
  }
}
