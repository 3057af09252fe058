/** Normalising a contour and then filtering it gives the contour back. */
module RoundTrip {
  import opened Types
  import opened Normalizer
  import opened RedundancyFilter

  /** The point-pen rule for lines: the point before a line point (cyclically) is on-curve. */
  predicate LinesFollowOnCurves(p: seq<PointRec>)
  {
    forall i :: 0 <= i < |p| && p[i].seg == Line ==> p[if i == 0 then |p| - 1 else i - 1].seg != OffCurve
  }

  /** Lines in `rest` are preceded by on-curve points; the first one by no buffered control. */
  predicate LinesAfterOnCurves(rest: seq<PointRec>, offs: seq<PointRec>)
  {
    && (rest != [] && rest[0].seg == Line ==> offs == [])
    && forall i :: 0 < i < |rest| && rest[i].seg == Line ==> rest[i - 1].seg != OffCurve
  }

  /** Filtering the normalised rest of a contour is filtering the rest itself: each synthetic
      pair is recognised and removed, and its curve is turned back into the line it was. */
  lemma {:induction false} FilterNormalizeRest(rest: seq<PointRec>, prev: Option<Pt>, offs: seq<PointRec>)
    requires prev.Some? || FirstOnCurveNotLine(rest)
    requires LinesAfterOnCurves(rest, offs)
    ensures FilterRest(NormalizeRest(rest, prev), prev, offs) == FilterRest(rest, prev, offs)
    decreases |rest|
  {
    if rest != [] {
      var q := rest[0];
      var tail := rest[1..];
      NormalizeRestUnfold(rest, prev);
      FilterRestUnfold(rest, prev, offs);
      if q.seg == OffCurve {
        FilterNormalizeRest(tail, prev, offs + [q]);
        FilterRestUnfold([q] + NormalizeRest(tail, prev), prev, offs);
        assert ([q] + NormalizeRest(tail, prev))[1..] == NormalizeRest(tail, prev);
      } else {
        FilterNormalizeRest(tail, Some(q.pt), []);
        var nt := NormalizeRest(tail, Some(q.pt));
        if q.seg == Line {
          assert offs == [];
          FilterSyntheticPair(q, prev.value, nt);
        } else {
          FilterRestUnfold([q] + nt, prev, offs);
          assert ([q] + nt)[1..] == nt;
        }
      }
    }
  }

  /** A line's synthetic pair, at the previous on-curve point and at the line's own point, is
      recognised by the filter and the curve becomes the line again. */
  lemma FilterSyntheticPair(q: PointRec, prev: Pt, nt: seq<PointRec>)
    requires q.seg == Line
    ensures FilterRest([OffCurveAt(prev), OffCurveAt(q.pt), q.(seg := Curve)] + nt, Some(prev), [])
      == [q] + FilterRest(nt, Some(q.pt), [])
  {
    var a := OffCurveAt(prev);
    var b := OffCurveAt(q.pt);
    var c := q.(seg := Curve);
    var s := [a, b, c] + nt;
    assert s[1..] == [b, c] + nt && s[1..][1..] == [c] + nt && s[1..][1..][1..] == nt;
    FilterRestUnfold(s, Some(prev), []);
    FilterRestUnfold(s[1..], Some(prev), [a]);
    FilterRestUnfold(s[1..][1..], Some(prev), [a, b]);
    assert [] + [a] == [a] && [a] + [b] == [a, b];
    assert Collapses(c, Some(prev), [a, b]);
    assert c.(seg := Line) == q;
  }

  /** Off-curve points at the end pass the normaliser unchanged, and what comes before them
      ends on an on-curve point at the same coordinate. */
  lemma LeadRedundantPreserved(p: seq<PointRec>)
    requires p != [] && p[0].seg != OffCurve && p[0].seg != Line
    ensures LeadRedundant([p[0]] + NormalizeRest(p[1..], Some(p[0].pt))) ==> LeadRedundant(p)
  {
    var n := |p|;
    if n == 1 {
      assert p[1..] == [];
    } else if p[n - 1].seg != OffCurve {
      NormalizeRestLast(p[1..], Some(p[0].pt));
    } else if n == 2 || p[n - 2].seg != OffCurve {
      LeadRedundantOffs(p, 1);
    } else if n == 3 || p[n - 3].seg != OffCurve {
      LeadRedundantOffs(p, 2);
    } else {
      LeadRedundantOffs(p, 3);
    }
  }

  /** The case of a contour ending in m off-curves (1 <= m <= 3) preceded, unless m is 3, by an
      on-curve point: those off-curves end the normalised contour too. */
  lemma LeadRedundantOffs(p: seq<PointRec>, m: nat)
    requires p != [] && p[0].seg != OffCurve && p[0].seg != Line
    requires 1 <= m <= 3 && m < |p|
    requires forall j :: |p| - m <= j < |p| ==> p[j].seg == OffCurve
    requires m < 3 ==> p[|p| - m - 1].seg != OffCurve
    ensures LeadRedundant([p[0]] + NormalizeRest(p[1..], Some(p[0].pt))) ==> LeadRedundant(p)
  {
    var i := |p| - m;
    TrailingOffs(p, m);
    var head := [p[0]] + NormalizeRest(p[1..i], Some(p[0].pt));
    var out := head + p[i..];
    if m == 3 {
      assert out[|out| - 3] == p[i];
    } else {
      HeadEndsOnCurve(p, i);
      if m == 1 {
        assert out[|out| - 2] == head[|head| - 1];
      } else {
        assert out[|out| - 3] == head[|head| - 1];
        assert out[|out| - 2] == p[|p| - 2] && out[|out| - 1] == p[|p| - 1];
      }
    }
  }

  /** Trailing off-curves pass the normaliser unchanged. */
  lemma TrailingOffs(p: seq<PointRec>, m: nat)
    requires p != [] && m < |p|
    requires forall j :: |p| - m <= j < |p| ==> p[j].seg == OffCurve
    ensures NormalizeRest(p[1..], Some(p[0].pt)) == NormalizeRest(p[1..|p| - m], Some(p[0].pt)) + p[|p| - m..]
  {
    var ys, zs := p[1..|p| - m], p[|p| - m..];
    assert p[1..] == ys + zs;
    NormalizeRestAppendOffs(ys, zs, Some(p[0].pt));
  }

  /** Normalising up to an on-curve point ends on that point's coordinate. */
  lemma HeadEndsOnCurve(p: seq<PointRec>, i: nat)
    requires 1 <= i <= |p| && p[0].seg != OffCurve && p[i - 1].seg != OffCurve
    ensures var head := [p[0]] + NormalizeRest(p[1..i], Some(p[0].pt));
      head[|head| - 1].seg != OffCurve && head[|head| - 1].pt == p[i - 1].pt
  {
    if i > 1 {
      NormalizeRestLast(p[1..i], Some(p[0].pt));
    }
  }

  lemma LinesAfterOnCurvesOfContour(p: seq<PointRec>)
    requires p != [] && LinesFollowOnCurves(p)
    ensures LinesAfterOnCurves(p[1..], if p[0].seg == OffCurve then [p[0]] else [])
  {
    forall i | 0 < i < |p[1..]| && p[1..][i].seg == Line
      ensures p[1..][i - 1].seg != OffCurve
    {
      assert p[i + 1].seg == Line;
    }
    if |p| > 1 && p[1].seg == Line {
      assert p[0].seg != OffCurve;
    }
  }

  lemma RoundTripOffStart(p: seq<PointRec>)
    requires Normalizable(p) && LinesFollowOnCurves(p) && p[0].seg == OffCurve
    ensures Filter(Normalize(p)) == Filter(p)
  {
    var q := p[0];
    var xs := p[1..];
    LinesAfterOnCurvesOfContour(p);
    var nt := NormalizeRest(xs, None);
    assert Normalize(p) == [q] + nt && Normalize(p)[1..] == nt;
    FilterNormalizeRest(xs, None, [q]);
  }

  lemma RoundTripOnStart(p: seq<PointRec>)
    requires Normalizable(p) && LinesFollowOnCurves(p) && !LeadCollapses(p)
    requires p[0].seg != OffCurve && p[0].seg != Line
    ensures Filter(Normalize(p)) == Filter(p)
  {
    var q := p[0];
    var xs := p[1..];
    LinesAfterOnCurvesOfContour(p);
    var prev := Some(q.pt);
    var nt := NormalizeRest(xs, prev);
    assert Normalize(p) == [q] + nt && Normalize(p)[1..] == nt;
    LeadRedundantPreserved(p);
    FilterNormalizeRest(xs, prev, []);
  }

  /** A leading line normalises to a curve whose two controls close the contour and sit on
      the last on-curve point and on the line point: exactly what the filter's first-point
      test looks for. */
  lemma NormalizeLineStartShape(p: seq<PointRec>)
    requires Normalizable(p) && LinesFollowOnCurves(p) && p[0].seg == Line
    ensures var out := Normalize(p);
      && out[0] == PointRec(Curve, p[0].pt, false, p[0].name)
      && LeadRedundant(out)
      && out[1..|out| - 2] == NormalizeRest(p[1..], Some(p[0].pt))
  {
    var q := p[0];
    var xs := p[1..];
    var out := Normalize(p);
    var prev := Some(q.pt);
    var pair := LeadLinePair(p);
    var c0 := PointRec(Curve, q.pt, false, q.name);
    NormalizeRestAppendOffs(xs, pair, prev);
    var nt := NormalizeRest(xs, prev);
    assert out == [c0] + nt + pair;
    var n := |out|;
    if xs == [] {
      assert out == [c0] + pair;
    } else {
      assert xs[|xs| - 1] == p[|p| - 1];
      NormalizeRestLast(xs, prev);
      assert out[n - 3] == nt[|nt| - 1];
    }
    assert out[1..n - 2] == nt;
  }

  lemma RoundTripLineStart(p: seq<PointRec>)
    requires Normalizable(p) && LinesFollowOnCurves(p) && p[0].seg == Line
    ensures Filter(Normalize(p)) == [p[0].(smooth := false)] + FilterRest(p[1..], Some(p[0].pt), [])
  {
    var out := Normalize(p);
    NormalizeLineStartShape(p);
    LinesAfterOnCurvesOfContour(p);
    FilterNormalizeRest(p[1..], Some(p[0].pt), []);
    assert Filter(out) == [out[0].(seg := Line)] + FilterRest(out[1..|out| - 2], Some(p[0].pt), []);
  }

  /** Round trip: filtering a normalised contour restores it, when the contour keeps the
      point-pen rule for lines and has no curve point whose controls already coincide with
      its end points. Only a leading line's smooth flag is lost. */
  lemma RoundTrip(p: seq<PointRec>)
    requires Normalizable(p) && LinesFollowOnCurves(p) && Compact(p)
    ensures Filter(Normalize(p)) == LeadSmoothCleared(p)
  {
    FilterFixpointIff(p);
    if p[0].seg == OffCurve {
      RoundTripOffStart(p);
    } else if p[0].seg == Line {
      RoundTripLineStart(p);
      assert Filter(p) == [p[0]] + FilterRest(p[1..], Some(p[0].pt), []);
      assert p == [p[0]] + p[1..];
    } else {
      RoundTripOnStart(p);
    }
  }

  /** The line rule cannot be dropped: in [curve A, control X, line B] the line gains controls
      at A and B, which join X in one run of three controls before B, so the filter keeps all
      five normalised points where the contour had three. */
  lemma RoundTripNeedsLinesFollowOnCurves()
    ensures var p := [PointRec(Curve, Pt(0.0, 0.0), false, None), OffCurveAt(Pt(1.0, 0.0)),
                      PointRec(Line, Pt(2.0, 0.0), false, None)];
      && Normalizable(p) && Compact(p) && !LinesFollowOnCurves(p)
      && Filter(Normalize(p)) == Normalize(p)
      && |Filter(Normalize(p))| == 5 && Filter(Normalize(p)) != LeadSmoothCleared(p)
  {
    var a := PointRec(Curve, Pt(0.0, 0.0), false, None);
    var x := OffCurveAt(Pt(1.0, 0.0));
    var b := PointRec(Line, Pt(2.0, 0.0), false, None);
    var p := [a, x, b];
    assert p[1..] == [x, b] && [x, b][1..] == [b] && [b][1..] == [];
    assert !LinesFollowOnCurves(p) by {
      assert p[2].seg == Line && p[1].seg == OffCurve;
    }
    var oa, ob, c := OffCurveAt(a.pt), OffCurveAt(b.pt), b.(seg := Curve);
    assert NormalizeRest([b], Some(a.pt)) == [oa, ob, c];
    assert NormalizeRest([x, b], Some(a.pt)) == [x, oa, ob, c];
    var out := [a, x, oa, ob, c];
    assert Normalize(p) == out;
    assert out[1..] == [x, oa, ob, c] && [x, oa, ob, c][1..] == [oa, ob, c];
    ThreeControlsKept(x, oa, ob, c, Some(a.pt));
    assert Filter(out) == [a] + FilterRest(out[1..], Some(a.pt), []);
  }

  /** Three controls before a curve point are kept, whatever their coordinates. */
  lemma ThreeControlsKept(x: PointRec, y: PointRec, z: PointRec, c: PointRec, prev: Option<Pt>)
    requires x.seg == OffCurve && y.seg == OffCurve && z.seg == OffCurve && c.seg == Curve
    ensures FilterRest([x, y, z, c], prev, []) == [x, y, z, c]
  {
    assert [x, y, z, c][1..] == [y, z, c] && [y, z, c][1..] == [z, c] && [z, c][1..] == [c] && [c][1..] == [];
    assert [x, y] + [z] == [x, y, z] && [x] + [y] == [x, y] && [] + [x] == [x];
    assert FilterRest([c], prev, [x, y, z]) == [x, y, z, c];
    assert FilterRest([z, c], prev, [x, y]) == FilterRest([c], prev, [x, y] + [z]);
    assert FilterRest([y, z, c], prev, [x]) == FilterRest([z, c], prev, [x] + [y]);
    assert FilterRest([x, y, z, c], prev, []) == FilterRest([y, z, c], prev, [] + [x]);
  }
}
