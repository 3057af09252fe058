/** The outline normaliser (MathGlyphPen): every line point becomes a curve point
    with two synthetic off-curve controls at the previous on-curve point and at itself. */
module Normalizer {
  import opened Types

  /** Number of line points in a contour. */
  function LineCount(p: seq<PointRec>): nat
  {
    if p == [] then 0 else (if p[0].seg == Line then 1 else 0) + LineCount(p[1..])
  }

  /** No on-curve point has been seen yet: the first on-curve point still to come is not a line. */
  predicate FirstOnCurveNotLine(rest: seq<PointRec>)
    decreases |rest|
  {
    rest == [] || (if rest[0].seg == OffCurve then FirstOnCurveNotLine(rest[1..]) else rest[0].seg != Line)
  }

  /** What the normaliser accepts: a non-empty contour, and when it starts with off-curve
      points its first on-curve point is not a line (the line would have no previous on-curve). */
  predicate Normalizable(p: seq<PointRec>)
  {
    p != [] && (p[0].seg == OffCurve ==> FirstOnCurveNotLine(p[1..]))
  }

  /** The points after the first, given the previous on-curve coordinate (None before any). */
  function NormalizeRest(rest: seq<PointRec>, prev: Option<Pt>): seq<PointRec>
    requires prev.Some? || FirstOnCurveNotLine(rest)
    decreases |rest|
  {
    if rest == [] then []
    else
      var q := rest[0];
      if q.seg == OffCurve then [q] + NormalizeRest(rest[1..], prev)
      else if q.seg == Line then
        [OffCurveAt(prev.value), OffCurveAt(q.pt), q.(seg := Curve)] + NormalizeRest(rest[1..], Some(q.pt))
      else [q] + NormalizeRest(rest[1..], Some(q.pt))
  }

  /** The two controls a leading line puts at the end of the contour (the wrap-around segment). */
  function LeadLinePair(p: seq<PointRec>): seq<PointRec>
    requires p != []
  {
    if p[0].seg == Line then [OffCurveAt(p[|p| - 1].pt), OffCurveAt(p[0].pt)] else []
  }

  /** The normalised contour. */
  function Normalize(p: seq<PointRec>): seq<PointRec>
    requires Normalizable(p)
  {
    var q := p[0];
    if q.seg == OffCurve then [q] + NormalizeRest(p[1..], None)
    else if q.seg == Line then
      [PointRec(Curve, q.pt, false, q.name)] + NormalizeRest(p[1..] + LeadLinePair(p), Some(q.pt))
    else [q] + NormalizeRest(p[1..], Some(q.pt))
  }

  /** The input with a leading line's smooth flag cleared: what the normaliser keeps of it. */
  function LeadSmoothCleared(p: seq<PointRec>): seq<PointRec>
    requires p != []
  {
    if p[0].seg == Line then [p[0].(smooth := false)] + p[1..] else p
  }

  /** The on-curve points of a contour, in order. */
  function OnCurves(s: seq<PointRec>): seq<PointRec>
  {
    if s == [] then [] else (if s[0].seg != OffCurve then [s[0]] else []) + OnCurves(s[1..])
  }

  /** Line points retyped as curve points, everything else as is. */
  function LinesAsCurves(s: seq<PointRec>): seq<PointRec>
  {
    if s == [] then [] else [if s[0].seg == Line then s[0].(seg := Curve) else s[0]] + LinesAsCurves(s[1..])
  }

  // ---------------------------------------------------------------- lemmas

  lemma {:induction false} NormalizeRestNoLines(rest: seq<PointRec>, prev: Option<Pt>)
    requires prev.Some? || FirstOnCurveNotLine(rest)
    ensures forall k :: 0 <= k < |NormalizeRest(rest, prev)| ==> NormalizeRest(rest, prev)[k].seg != Line
    decreases |rest|
  {
    if rest != [] {
      var q := rest[0];
      if q.seg == OffCurve {
        NormalizeRestNoLines(rest[1..], prev);
      } else {
        NormalizeRestNoLines(rest[1..], Some(q.pt));
      }
    }
  }

  /** No line point survives normalisation. */
  lemma NormalizeNoLines(p: seq<PointRec>)
    requires Normalizable(p)
    ensures forall k :: 0 <= k < |Normalize(p)| ==> Normalize(p)[k].seg != Line
  {
    var q := p[0];
    if q.seg == OffCurve {
      NormalizeRestNoLines(p[1..], None);
    } else if q.seg == Line {
      NormalizeRestNoLines(p[1..] + LeadLinePair(p), Some(q.pt));
    } else {
      NormalizeRestNoLines(p[1..], Some(q.pt));
    }
  }

  lemma {:induction false} LineCountAppend(a: seq<PointRec>, b: seq<PointRec>)
    ensures LineCount(a + b) == LineCount(a) + LineCount(b)
    decreases |a|
  {
    if a == [] {
      assert a + b == b;
    } else {
      assert (a + b)[1..] == a[1..] + b;
      LineCountAppend(a[1..], b);
    }
  }

  lemma {:induction false} NormalizeRestLength(rest: seq<PointRec>, prev: Option<Pt>)
    requires prev.Some? || FirstOnCurveNotLine(rest)
    ensures |NormalizeRest(rest, prev)| == |rest| + 2 * LineCount(rest)
    decreases |rest|
  {
    if rest != [] {
      var q := rest[0];
      if q.seg == OffCurve {
        NormalizeRestLength(rest[1..], prev);
      } else {
        NormalizeRestLength(rest[1..], Some(q.pt));
      }
    }
  }

  /** Each line point adds exactly its two synthetic controls. */
  lemma NormalizeLength(p: seq<PointRec>)
    requires Normalizable(p)
    ensures |Normalize(p)| == |p| + 2 * LineCount(p)
  {
    var q := p[0];
    assert LineCount(p) == (if q.seg == Line then 1 else 0) + LineCount(p[1..]);
    if q.seg == OffCurve {
      NormalizeRestLength(p[1..], None);
    } else if q.seg == Line {
      var pair := LeadLinePair(p);
      LineCountAppend(p[1..], pair);
      LineCountOfOffs(pair);
      NormalizeRestLength(p[1..] + pair, Some(q.pt));
    } else {
      NormalizeRestLength(p[1..], Some(q.pt));
    }
  }

  lemma {:induction false} OnCurvesAppend(a: seq<PointRec>, b: seq<PointRec>)
    ensures OnCurves(a + b) == OnCurves(a) + OnCurves(b)
    decreases |a|
  {
    if a == [] {
      assert a + b == b;
    } else {
      assert (a + b)[1..] == a[1..] + b;
      OnCurvesAppend(a[1..], b);
    }
  }

  lemma {:induction false} NormalizeRestOnCurves(rest: seq<PointRec>, prev: Option<Pt>)
    requires prev.Some? || FirstOnCurveNotLine(rest)
    ensures OnCurves(NormalizeRest(rest, prev)) == LinesAsCurves(OnCurves(rest))
    decreases |rest|
  {
    if rest != [] {
      var q := rest[0];
      var next := if q.seg == OffCurve then prev else Some(q.pt);
      NormalizeRestUnfold(rest, prev);
      NormalizeRestOnCurves(rest[1..], next);
      if q.seg == OffCurve {
        OffCurveOnCurvesStep(q, NormalizeRest(rest[1..], next));
        assert OnCurves(rest) == [] + OnCurves(rest[1..]) == OnCurves(rest[1..]);
      } else if q.seg == Line {
        LineOnCurvesStep(prev.value, q, NormalizeRest(rest[1..], next));
        LinesAsCurvesCons(q, OnCurves(rest[1..]));
      } else {
        OnCurvesCons(q, NormalizeRest(rest[1..], next));
        LinesAsCurvesCons(q, OnCurves(rest[1..]));
      }
    }
  }

  lemma OnCurvesCons(q: PointRec, t: seq<PointRec>)
    ensures OnCurves([q] + t) == (if q.seg != OffCurve then [q] else []) + OnCurves(t)
  {
    assert ([q] + t)[1..] == t;
  }

  lemma LinesAsCurvesCons(q: PointRec, t: seq<PointRec>)
    ensures LinesAsCurves([q] + t) == [if q.seg == Line then q.(seg := Curve) else q] + LinesAsCurves(t)
  {
    assert ([q] + t)[1..] == t;
  }

  lemma OffCurveOnCurvesStep(q: PointRec, t: seq<PointRec>)
    requires q.seg == OffCurve
    ensures OnCurves([q] + t) == OnCurves(t)
  {
    OnCurvesCons(q, t);
  }

  /** The two synthetic controls of a line contribute no on-curve point. */
  lemma LineOnCurvesStep(a: Pt, q: PointRec, t: seq<PointRec>)
    requires q.seg == Line
    ensures OnCurves([OffCurveAt(a), OffCurveAt(q.pt), q.(seg := Curve)] + t) == [q.(seg := Curve)] + OnCurves(t)
  {
    var c := q.(seg := Curve);
    var s := [OffCurveAt(a), OffCurveAt(q.pt), c] + t;
    assert s[1..][1..] == [c] + t;
    assert OnCurves(s) == OnCurves(s[1..]) == OnCurves([c] + t);
    OnCurvesCons(c, t);
  }

  lemma OnCurvesSingle(q: PointRec)
    ensures OnCurves([q]) == if q.seg != OffCurve then [q] else []
  {
    assert [q][1..] == [];
  }

  lemma LinesAsCurvesSingle(q: PointRec)
    ensures LinesAsCurves([q]) == [if q.seg == Line then q.(seg := Curve) else q]
  {
    assert [q][1..] == [];
  }

  lemma {:induction false} LineCountOfOffs(s: seq<PointRec>)
    requires forall k :: 0 <= k < |s| ==> s[k].seg == OffCurve
    ensures LineCount(s) == 0
    decreases |s|
  {
    if s != [] {
      LineCountOfOffs(s[1..]);
    }
  }

  lemma {:induction false} OnCurvesOfOffs(s: seq<PointRec>)
    requires forall k :: 0 <= k < |s| ==> s[k].seg == OffCurve
    ensures OnCurves(s) == []
    decreases |s|
  {
    if s != [] {
      OnCurvesOfOffs(s[1..]);
    }
  }

  /** The on-curve points of the normalised contour are the input's on-curve points, in order,
      with lines retyped as curves (and a leading line's smooth flag cleared). */
  lemma NormalizeOnCurves(p: seq<PointRec>)
    requires Normalizable(p)
    ensures OnCurves(Normalize(p)) == LinesAsCurves(OnCurves(LeadSmoothCleared(p)))
  {
    var q := p[0];
    var lead := LeadSmoothCleared(p);
    assert lead == [lead[0]] + p[1..];
    OnCurvesAppend([lead[0]], p[1..]);
    OnCurvesSingle(lead[0]);
    if q.seg == OffCurve {
      OnCurvesAppend([q], NormalizeRest(p[1..], None));
      OnCurvesSingle(q);
      assert lead == p;
      NormalizeRestOnCurves(p[1..], None);
      assert OnCurves(p) == [] + OnCurves(p[1..]) == OnCurves(p[1..]);
      assert Normalize(p) == [q] + NormalizeRest(p[1..], None);
      assert OnCurves(Normalize(p)) == [] + OnCurves(NormalizeRest(p[1..], None));
    } else if q.seg == Line {
      var pair := LeadLinePair(p);
      var tail := NormalizeRest(p[1..] + pair, Some(q.pt));
      OnCurvesAppend([PointRec(Curve, q.pt, false, q.name)], tail);
      OnCurvesSingle(PointRec(Curve, q.pt, false, q.name));
      LinesAsCurvesSingle(lead[0]);
      NormalizeRestOnCurves(p[1..] + pair, Some(q.pt));
      OnCurvesAppend(p[1..], pair);
      OnCurvesOfOffs(pair);
      assert p[1..] + pair == p[1..] + pair;
      assert OnCurves(p[1..] + pair) == OnCurves(p[1..]);
      LinesAsCurvesAppend([lead[0]], OnCurves(p[1..]));
    } else {
      OnCurvesAppend([q], NormalizeRest(p[1..], Some(q.pt)));
      OnCurvesSingle(q);
      LinesAsCurvesSingle(q);
      NormalizeRestOnCurves(p[1..], Some(q.pt));
      LinesAsCurvesAppend([q], OnCurves(p[1..]));
    }
  }

  lemma {:induction false} LinesAsCurvesAppend(a: seq<PointRec>, b: seq<PointRec>)
    ensures LinesAsCurves(a + b) == LinesAsCurves(a) + LinesAsCurves(b)
    decreases |a|
  {
    if a == [] {
      assert a + b == b;
    } else {
      assert (a + b)[1..] == a[1..] + b;
      LinesAsCurvesAppend(a[1..], b);
    }
  }

  lemma {:induction false} NormalizeRestNoLineIdentity(rest: seq<PointRec>, prev: Option<Pt>)
    requires LineCount(rest) == 0
    requires prev.Some? || FirstOnCurveNotLine(rest)
    ensures NormalizeRest(rest, prev) == rest
    decreases |rest|
  {
    if rest != [] {
      var q := rest[0];
      NormalizeRestNoLineIdentity(rest[1..], if q.seg == OffCurve then prev else Some(q.pt));
    }
  }

  /** A contour without line points is already normal: normalising it changes nothing. */
  lemma NormalizeIdempotent(p: seq<PointRec>)
    requires p != [] && LineCount(p) == 0
    ensures Normalizable(p) && Normalize(p) == p
  {
    var q := p[0];
    var prev := if q.seg == OffCurve then None else Some(q.pt);
    assert q.seg != Line && LineCount(p[1..]) == 0;
    NoLinesFirstOnCurve(p[1..]);
    NormalizeRestNoLineIdentity(p[1..], prev);
    assert Normalize(p) == [q] + NormalizeRest(p[1..], prev);
    assert [q] + p[1..] == p;
  }

  lemma {:induction false} NoLinesFirstOnCurve(s: seq<PointRec>)
    requires LineCount(s) == 0
    ensures FirstOnCurveNotLine(s)
    decreases |s|
  {
    if s != [] && s[0].seg == OffCurve {
      NoLinesFirstOnCurve(s[1..]);
    }
  }

  /** Off-curve points at the end pass through unchanged. */
  lemma {:induction false} NormalizeRestAppendOffs(ys: seq<PointRec>, zs: seq<PointRec>, prev: Option<Pt>)
    requires forall k :: 0 <= k < |zs| ==> zs[k].seg == OffCurve
    requires prev.Some? || FirstOnCurveNotLine(ys + zs)
    ensures prev.Some? || FirstOnCurveNotLine(ys)
    ensures NormalizeRest(ys + zs, prev) == NormalizeRest(ys, prev) + zs
    decreases |ys|
  {
    if ys == [] {
      assert ys + zs == zs;
      OffsFirstOnCurve(zs);
      NormalizeRestOffs(zs, prev);
    } else {
      var q := ys[0];
      assert (ys + zs)[1..] == ys[1..] + zs;
      NormalizeRestAppendOffs(ys[1..], zs, if q.seg == OffCurve then prev else Some(q.pt));
    }
  }

  lemma {:induction false} OffsFirstOnCurve(zs: seq<PointRec>)
    requires forall k :: 0 <= k < |zs| ==> zs[k].seg == OffCurve
    ensures FirstOnCurveNotLine(zs)
    decreases |zs|
  {
    if zs != [] {
      OffsFirstOnCurve(zs[1..]);
    }
  }

  lemma {:induction false} NormalizeRestOffs(zs: seq<PointRec>, prev: Option<Pt>)
    requires forall k :: 0 <= k < |zs| ==> zs[k].seg == OffCurve
    requires prev.Some? || FirstOnCurveNotLine(zs)
    ensures NormalizeRest(zs, prev) == zs
    decreases |zs|
  {
    if zs != [] {
      NormalizeRestOffs(zs[1..], prev);
    }
  }

  /** A contour part that ends on an on-curve point normalises to one that ends on an
      on-curve point at the same coordinate. */
  lemma {:induction false} NormalizeRestLast(ys: seq<PointRec>, prev: Option<Pt>)
    requires ys != [] && ys[|ys| - 1].seg != OffCurve
    requires prev.Some? || FirstOnCurveNotLine(ys)
    ensures var out := NormalizeRest(ys, prev);
      out != [] && out[|out| - 1].seg != OffCurve && out[|out| - 1].pt == ys[|ys| - 1].pt
    decreases |ys|
  {
    var q := ys[0];
    var next := if q.seg == OffCurve then prev else Some(q.pt);
    if |ys| > 1 {
      NormalizeRestLast(ys[1..], next);
    }
  }

  lemma NormalizeRestUnfold(rest: seq<PointRec>, prev: Option<Pt>)
    requires rest != [] && (prev.Some? || FirstOnCurveNotLine(rest))
    ensures var q := rest[0];
      var next := if q.seg == OffCurve then prev else Some(q.pt);
      && (next.Some? || FirstOnCurveNotLine(rest[1..]))
      && (q.seg == Line ==> prev.Some?)
      && NormalizeRest(rest, prev) ==
        (if q.seg == OffCurve then [q]
         else if q.seg == Line then [OffCurveAt(prev.value), OffCurveAt(q.pt), q.(seg := Curve)]
         else [q]) + NormalizeRest(rest[1..], next)
  {
  }

  // ---------------------------------------------------------------- placement

  /** The coordinate of the last on-curve point of `s`, or `prev` when `s` has none. */
  function LastOnCurve(s: seq<PointRec>, prev: Option<Pt>): Option<Pt>
    decreases |s|
  {
    if s == [] then prev
    else LastOnCurve(s[1..], if s[0].seg == OffCurve then prev else Some(s[0].pt))
  }

  /** Read from the end: a trailing on-curve point decides, a trailing off-curve one is skipped. */
  lemma {:induction false} LastOnCurveSnoc(s: seq<PointRec>, q: PointRec, prev: Option<Pt>)
    ensures LastOnCurve(s + [q], prev) == if q.seg == OffCurve then LastOnCurve(s, prev) else Some(q.pt)
    decreases |s|
  {
    if s == [] {
      assert [q][1..] == [];
    } else {
      assert (s + [q])[1..] == s[1..] + [q];
      LastOnCurveSnoc(s[1..], q, if s[0].seg == OffCurve then prev else Some(s[0].pt));
    }
  }

  /** Where input point k lands in the normalised contour: k points precede it, plus the two
      synthetic controls of every line among points 1..k. */
  function NormalPos(p: seq<PointRec>, k: nat): nat
    requires k < |p|
  {
    k + 2 * LineCount(p[1..k + 1])
  }

  /** The next input point lands one place further on, or three when it is a line. */
  lemma NormalPosStep(p: seq<PointRec>, k: nat)
    requires k + 1 < |p|
    ensures NormalPos(p, k + 1) == NormalPos(p, k) + (if p[k + 1].seg == Line then 3 else 1)
  {
    assert p[1..k + 2] == p[1..k + 1] + [p[k + 1]];
    LineCountAppend(p[1..k + 1], [p[k + 1]]);
    assert [p[k + 1]][1..] == [];
  }

  /** The position map is strictly increasing: the normaliser keeps the input order. */
  lemma {:induction false} NormalPosIncreasing(p: seq<PointRec>, k: nat, j: nat)
    requires k < j < |p|
    ensures NormalPos(p, k) < NormalPos(p, j)
    decreases j - k
  {
    NormalPosStep(p, k);
    if k + 1 < j {
      NormalPosIncreasing(p, k + 1, j);
    }
  }

  /** Output index i holds input point q as the normaliser converts it: a line becomes a curve
      behind two controls, at the previous on-curve coordinate `before` and at its own. */
  predicate PlacedAt(out: seq<PointRec>, i: int, q: PointRec, before: Option<Pt>)
  {
    && 0 <= i < |out|
    && out[i] == (if q.seg == Line then q.(seg := Curve) else q)
    && (q.seg == Line ==>
          && i >= 2 && before.Some?
          && out[i - 2] == OffCurveAt(before.value)
          && out[i - 1] == OffCurveAt(q.pt))
  }

  lemma PlacedShift(h: seq<PointRec>, t: seq<PointRec>, i: int, q: PointRec, before: Option<Pt>)
    requires PlacedAt(t, i, q, before)
    ensures PlacedAt(h + t, |h| + i, q, before)
  {
  }

  /** Normalising splits at any point: the second part continues from the last on-curve
      coordinate of the first. */
  lemma {:induction false} NormalizeRestAppend(a: seq<PointRec>, b: seq<PointRec>, prev: Option<Pt>)
    requires prev.Some? || FirstOnCurveNotLine(a + b)
    ensures prev.Some? || FirstOnCurveNotLine(a)
    ensures LastOnCurve(a, prev).Some? || FirstOnCurveNotLine(b)
    ensures NormalizeRest(a + b, prev) == NormalizeRest(a, prev) + NormalizeRest(b, LastOnCurve(a, prev))
    decreases |a|
  {
    if a == [] {
      assert a + b == b;
    } else {
      var q := a[0];
      var next := if q.seg == OffCurve then prev else Some(q.pt);
      assert (a + b)[0] == q && (a + b)[1..] == a[1..] + b;
      NormalizeRestUnfold(a + b, prev);
      NormalizeRestAppend(a[1..], b, next);
      NormalizeRestUnfold(a, prev);
      var h := if q.seg == OffCurve then [q]
        else if q.seg == Line then [OffCurveAt(prev.value), OffCurveAt(q.pt), q.(seg := Curve)]
        else [q];
      ConcatAssoc(h, NormalizeRest(a[1..], next), NormalizeRest(b, LastOnCurve(a, prev)));
    }
  }

  lemma ConcatAssoc(x: seq<PointRec>, y: seq<PointRec>, z: seq<PointRec>)
    ensures x + y + z == x + (y + z)
  {
  }

  /** Point k of the rest lands at k plus two per line up to and including it. */
  lemma NormalizeRestPlacement(rest: seq<PointRec>, prev: Option<Pt>, k: nat)
    requires prev.Some? || FirstOnCurveNotLine(rest)
    requires k < |rest|
    ensures PlacedAt(NormalizeRest(rest, prev), k + 2 * LineCount(rest[..k + 1]), rest[k], LastOnCurve(rest[..k], prev))
  {
    var before := LastOnCurve(rest[..k], prev);
    NormalizeRestSplitAt(rest, prev, k);
    LineCountSnoc(rest, k);
    PlacedFirst(rest[k..], before);
    PlacedShift(NormalizeRest(rest[..k], prev), NormalizeRest(rest[k..], before),
      if rest[k].seg == Line then 2 else 0, rest[k], before);
  }

  /** The rest normalises as its first k points followed by the others. */
  lemma NormalizeRestSplitAt(rest: seq<PointRec>, prev: Option<Pt>, k: nat)
    requires prev.Some? || FirstOnCurveNotLine(rest)
    requires k < |rest|
    ensures prev.Some? || FirstOnCurveNotLine(rest[..k])
    ensures LastOnCurve(rest[..k], prev).Some? || FirstOnCurveNotLine(rest[k..])
    ensures |NormalizeRest(rest[..k], prev)| == k + 2 * LineCount(rest[..k])
    ensures NormalizeRest(rest, prev) ==
      NormalizeRest(rest[..k], prev) + NormalizeRest(rest[k..], LastOnCurve(rest[..k], prev))
  {
    assert rest == rest[..k] + rest[k..];
    NormalizeRestAppend(rest[..k], rest[k..], prev);
    NormalizeRestLength(rest[..k], prev);
  }

  lemma LineCountSnoc(s: seq<PointRec>, k: nat)
    requires k < |s|
    ensures LineCount(s[..k + 1]) == LineCount(s[..k]) + (if s[k].seg == Line then 1 else 0)
  {
    assert s[..k + 1] == s[..k] + [s[k]];
    LineCountAppend(s[..k], [s[k]]);
    assert [s[k]][1..] == [];
  }

  /** The first point of the rest sits at the end of its own expansion. */
  lemma PlacedFirst(rest: seq<PointRec>, prev: Option<Pt>)
    requires rest != [] && (prev.Some? || FirstOnCurveNotLine(rest))
    ensures PlacedAt(NormalizeRest(rest, prev), if rest[0].seg == Line then 2 else 0, rest[0], prev)
  {
    NormalizeRestUnfold(rest, prev);
  }

  /** Input point k of a contour lands at NormalPos(p, k), converted as PlacedAt says, the
      previous on-curve coordinate being that of the last on-curve point before it; a leading
      line becomes a curve with its smooth flag cleared. */
  lemma NormalizePlacement(p: seq<PointRec>, k: nat)
    requires Normalizable(p) && k < |p|
    ensures NormalPos(p, k) < |Normalize(p)|
    ensures k == 0 && p[0].seg == Line ==> Normalize(p)[0] == p[0].(seg := Curve, smooth := false)
    ensures k > 0 || p[0].seg != Line ==> PlacedAt(Normalize(p), NormalPos(p, k), p[k], LastOnCurve(p[..k], None))
  {
    if k == 0 {
      assert p[1..1] == [] && p[..0] == [];
    } else {
      PlacedLater(p, k);
    }
  }

  /** A point after the first keeps its place in the normalised rest, shifted by the first point. */
  lemma PlacedLater(p: seq<PointRec>, k: nat)
    requires Normalizable(p) && 0 < k < |p|
    ensures PlacedAt(Normalize(p), NormalPos(p, k), p[k], LastOnCurve(p[..k], None))
  {
    var prev := if p[0].seg == OffCurve then None else Some(p[0].pt);
    var rest := p[1..] + LeadLinePair(p);
    NormalizeSplit(p, prev, rest);
    NormalizeRestPlacement(rest, prev, k - 1);
    RestOfContour(p, k, prev, rest);
    PlacedBehindHead(Normalize(p), NormalizeRest(rest, prev), (k - 1) + 2 * LineCount(rest[..k]), NormalPos(p, k),
      p[k], LastOnCurve(p[..k], None));
  }

  lemma PlacedBehindHead(out: seq<PointRec>, t: seq<PointRec>, i: int, j: int, q: PointRec, before: Option<Pt>)
    requires out != [] && out[1..] == t && PlacedAt(t, i, q, before) && j == i + 1
    ensures PlacedAt(out, j, q, before)
  {
    assert out == [out[0]] + t;
    PlacedShift([out[0]], t, i, q, before);
  }

  /** After its first point, a normalised contour is the normalised rest of the input. */
  lemma NormalizeSplit(p: seq<PointRec>, prev: Option<Pt>, rest: seq<PointRec>)
    requires Normalizable(p)
    requires prev == (if p[0].seg == OffCurve then None else Some(p[0].pt))
    requires rest == p[1..] + LeadLinePair(p)
    ensures prev.Some? || FirstOnCurveNotLine(rest)
    ensures Normalize(p) != [] && Normalize(p)[1..] == NormalizeRest(rest, prev)
  {
    assert p[0].seg != Line ==> rest == p[1..];
  }

  /** The rest the normaliser walks agrees with the contour up to point k. */
  lemma RestOfContour(p: seq<PointRec>, k: nat, prev: Option<Pt>, rest: seq<PointRec>)
    requires Normalizable(p) && 0 < k < |p|
    requires prev == (if p[0].seg == OffCurve then None else Some(p[0].pt))
    requires rest == p[1..] + LeadLinePair(p)
    ensures rest[k - 1] == p[k]
    ensures LineCount(rest[..k]) == LineCount(p[1..k + 1])
    ensures LastOnCurve(rest[..k - 1], prev) == LastOnCurve(p[..k], None)
  {
    assert rest[..k] == p[1..k + 1];
    assert rest[..k - 1] == p[1..k];
    assert p[..k][1..] == p[1..k];
  }

  /** A leading line closes the contour with controls at the last input point and at itself. */
  lemma NormalizeLeadLineControls(p: seq<PointRec>)
    requires Normalizable(p) && p[0].seg == Line
    ensures var out := Normalize(p);
      && |out| >= 3
      && out[|out| - 2] == OffCurveAt(p[|p| - 1].pt)
      && out[|out| - 1] == OffCurveAt(p[0].pt)
  {
    var pair := LeadLinePair(p);
    NormalizeRestAppendOffs(p[1..], pair, Some(p[0].pt));
    var out := Normalize(p);
    assert out == [out[0]] + NormalizeRest(p[1..], Some(p[0].pt)) + pair;
  }

  /** The flush's handling of the first point: the converted start, the buffered off-curves,
      the previous on-curve coordinate, and the buffer (extended for a leading line). */
  method ConvertFirstPoint(points: seq<PointRec>)
    returns (contour: seq<PointRec>, offCurves: seq<PointRec>, prevOnCurve: Option<Pt>, pts: seq<PointRec>)
    requires Normalizable(points)
    ensures pts == points + LeadLinePair(points)
    ensures prevOnCurve.Some? || FirstOnCurveNotLine(pts[1..])
    ensures contour + offCurves + NormalizeRest(pts[1..], prevOnCurve) == Normalize(points)
  {
    pts := points;
    contour := [];
    prevOnCurve := None;
    offCurves := [];
    var first := pts[0];
    if first.seg == OffCurve {
      offCurves := [first];
      assert contour + offCurves == [first];
    } else if first.seg == Line {
      prevOnCurve := Some(first.pt);
      contour := [PointRec(Curve, first.pt, false, first.name)];
      var lastPoint := pts[|pts| - 1].pt;
      pts := pts + [OffCurveAt(lastPoint), OffCurveAt(first.pt)];
      assert pts[1..] == points[1..] + LeadLinePair(points);
      assert contour + offCurves == contour;
    } else {
      contour := [first];
      prevOnCurve := Some(first.pt);
      assert contour + offCurves == contour;
    }
  }

  /** The conversion loop of the pen's contour flush: returns the converted contour and the
      point buffer as the flush leaves it. */
  method ConvertContour(points: seq<PointRec>) returns (contour: seq<PointRec>, pts: seq<PointRec>)
    requires Normalizable(points)
    ensures contour == Normalize(points)
    ensures pts == points + LeadLinePair(points)
  {
    var prevOnCurve: Option<Pt>, offCurves: seq<PointRec>;
    contour, offCurves, prevOnCurve, pts := ConvertFirstPoint(points);
    var i := 1;
    while i < |pts|
      invariant 1 <= i <= |pts|
      invariant prevOnCurve.Some? || FirstOnCurveNotLine(pts[i..])
      invariant contour + offCurves + NormalizeRest(pts[i..], prevOnCurve) == Normalize(points)
    {
      assert pts[i..][1..] == pts[i + 1..];
      contour, offCurves, prevOnCurve := ConvertStep(pts[i..], contour, offCurves, prevOnCurve);
      i := i + 1;
    }
    assert pts[i..] == [];
    assert contour + offCurves == Normalize(points);
    if |offCurves| != 0 {
      contour := contour + offCurves;
    } else {
      assert contour + offCurves == contour;
    }
  }

  /** One pass of the conversion loop over the next point: buffer an off-curve, or emit the
      buffered controls and the on-curve point, a line becoming a curve after two synthetic
      controls. */
  method ConvertStep(rest: seq<PointRec>, contour: seq<PointRec>, offs: seq<PointRec>, prev: Option<Pt>)
    returns (contour': seq<PointRec>, offs': seq<PointRec>, prev': Option<Pt>)
    requires rest != [] && (prev.Some? || FirstOnCurveNotLine(rest))
    ensures prev'.Some? || FirstOnCurveNotLine(rest[1..])
    ensures contour' + offs' + NormalizeRest(rest[1..], prev') == contour + offs + NormalizeRest(rest, prev)
  {
    var q := rest[0];
    NormalizeRestUnfold(rest, prev);
    var tail := NormalizeRest(rest[1..], if q.seg == OffCurve then prev else Some(q.pt));
    if q.seg == OffCurve {
      contour', offs', prev' := contour, offs + [q], prev;
      ConcatRegroup(contour, offs, [q], tail);
    } else {
      var seg := q.seg;
      var controls := [];
      if seg == Line {
        seg := Curve;
        controls := [OffCurveAt(prev.value), OffCurveAt(q.pt)];
      }
      var point := PointRec(seg, q.pt, q.smooth, q.name);
      assert point == if q.seg == Line then q.(seg := Curve) else q;
      contour', offs', prev' := contour + (offs + controls) + [point], [], Some(q.pt);
      assert contour' + offs' == contour + offs + (controls + [point]);
      ConcatRegroup(contour, offs, controls + [point], tail);
    }
  }

  lemma ConcatRegroup<T>(a: seq<T>, b: seq<T>, c: seq<T>, d: seq<T>)
    ensures a + (b + c) + d == a + b + (c + d)
  {
  }

  /** The point pen that builds the math glyph's contours and components. */
  class MathGlyphPen {
    var contours: seq<Contour>
    var components: seq<Component>
    var points: seq<PointRec>

    constructor ()
      ensures contours == [] && components == [] && points == []
    {
      contours := [];
      components := [];
      points := [];
    }

    method BeginPath()
      modifies this
      ensures points == [] && contours == old(contours) && components == old(components)
    {
      points := [];
    }

    method AddPoint(pt: Pt, seg: SegmentType, smooth: bool, name: Option<string>)
      modifies this
      ensures points == old(points) + [PointRec(seg, pt, smooth, name)]
      ensures contours == old(contours) && components == old(components)
    {
      points := points + [PointRec(seg, pt, smooth, name)];
    }

    method EndPath()
      requires Normalizable(points)
      modifies this
      ensures contours == old(contours) + [Normalize(old(points))]
      ensures points == old(points) + LeadLinePair(old(points))
      ensures components == old(components)
    {
      FlushContour();
    }

    method AddComponent(baseGlyph: string, transformation: Transform, identifier: Option<string>)
      modifies this
      ensures components == old(components) + [Component(baseGlyph, transformation, identifier)]
      ensures contours == old(contours) && points == old(points)
    {
      components := components + [Component(baseGlyph, transformation, identifier)];
    }

    /** Converts the buffered contour; a leading line appends its two controls to the buffer. */
    method FlushContour()
      requires Normalizable(points)
      modifies this
      ensures contours == old(contours) + [Normalize(old(points))]
      ensures points == old(points) + LeadLinePair(old(points))
      ensures components == old(components)
    {
      var contour, pts := ConvertContour(points);
      contours := contours + [contour];
      points := pts;
    }
  }
}
