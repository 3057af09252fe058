/** The glyph operations exactly as the source spells them, where that differs from what it
    evidently means, each set against the corrected operation the rest of the model uses. */
module AsWritten {
  import opened Types
  import opened Normalizer
  import opened Structure
  import opened GlyphMath
  import opened Pairing

  /** glyph ± glyph as written: the anchor step calls the anchor helper without its point
      function, and the component step names a variable that does not exist. */
  function ProcessMathOneAsWritten(op: BinaryOp, g1: MathGlyph, g2: MathGlyph): Result<MathGlyph, MathError>
  {
    if !CombinableContours(g1.contours, g2.contours) then Err(IndexOutOfRange)
    else if |g1.anchors| > 0 then Err(MissingArgument)
    else if |g1.components| > 0 then Err(UndefinedName)
    else ProcessMathOne(op, g1, g2)
  }

  /** As written, any glyph with an anchor or a component cannot take part in a sum or a
      difference; otherwise the written and the corrected operation agree. */
  lemma ProcessMathOneAsWrittenFails(op: BinaryOp, g1: MathGlyph, g2: MathGlyph)
    ensures ProcessMathOneAsWritten(op, g1, g2).Ok? <==>
      ProcessMathOne(op, g1, g2).Ok? && |g1.anchors| == 0 && |g1.components| == 0
    ensures ProcessMathOneAsWritten(op, g1, g2).Ok? ==> ProcessMathOneAsWritten(op, g1, g2) == ProcessMathOne(op, g1, g2)
    ensures ProcessMathOne(op, g1, g2).Ok? && |g1.anchors| > 0 ==> ProcessMathOneAsWritten(op, g1, g2) == Err(MissingArgument)
    ensures ProcessMathOne(op, g1, g2).Ok? && |g1.anchors| == 0 && |g1.components| > 0 ==>
      ProcessMathOneAsWritten(op, g1, g2) == Err(UndefinedName)
  {
  }

  /** The smallest glyph with one anchor and one component. */
  function MarkedGlyph(): MathGlyph
  {
    MathGlyph(None, None, 0.0, None, map[], [],
      [Component("a", Transform(1.0, 0.0, 0.0, 1.0, 0.0, 0.0), None)],
      [Anchor(Some("top"), 0.0, 0.0, None, None)], 0)
  }

  /** Adding that glyph to itself fails as written and succeeds once corrected. */
  lemma AddMarkedGlyph()
    ensures ProcessMathOneAsWritten(Plus, MarkedGlyph(), MarkedGlyph()) == Err(MissingArgument)
    ensures Add(MarkedGlyph(), MarkedGlyph()).Ok?
    ensures |Add(MarkedGlyph(), MarkedGlyph()).value.components| == 1
  {
    var g := MarkedGlyph();
    PairComponentsSelf(g.components);
  }

  /** glyph × or ÷ factor as written: the anchor step names a variable that does not exist. */
  function ScaleGlyphAsWritten(op: ScaleOp, g: MathGlyph, f: FactorArg): Result<MathGlyph, MathError>
  {
    var fx, fy := XFactor(f), YFactor(f);
    if HasPoint(g.contours) && !CanScale(op, fx, fy) then Err(ZeroDivision)
    else if |g.anchors| > 0 then Err(UndefinedName)
    else ScaleGlyph(op, g, f)
  }

  /** As written, scaling any glyph with an anchor fails, even multiplication; otherwise the
      written and the corrected operation agree. */
  lemma ScaleGlyphAsWrittenFails(op: ScaleOp, g: MathGlyph, f: FactorArg)
    ensures |g.anchors| == 0 ==> ScaleGlyphAsWritten(op, g, f) == ScaleGlyph(op, g, f)
    ensures |g.anchors| > 0 ==> ScaleGlyphAsWritten(op, g, f).Err?
    ensures |g.anchors| > 0 && op == Times ==> ScaleGlyphAsWritten(op, g, f) == Err(UndefinedName) && ScaleGlyph(op, g, f).Ok?
  {
  }

  /** Copy as written: drawing the components unpacks each three-entry component record into
      two names, which fails whenever there is a component. */
  function CopyAsWritten(g: MathGlyph): Result<MathGlyph, MathError>
    requires forall i :: 0 <= i < |g.contours| ==> Normalizable(g.contours[i])
  {
    if |g.components| > 0 then Err(TooManyValuesToUnpack) else Ok(Copy(g))
  }

  lemma CopyAsWrittenFails(g: MathGlyph)
    requires forall i :: 0 <= i < |g.contours| ==> Normalizable(g.contours[i])
    ensures CopyAsWritten(g).Ok? <==> |g.components| == 0
    ensures CopyAsWritten(g).Ok? ==> CopyAsWritten(g).value == Copy(g)
  {
  }

  /** The component structure as written: unpacking a component record yields its keys, so every
      entry is the same key name, whichever the record's iteration order puts first. */
  function ComponentStructureAsWritten(components: seq<Component>, firstKey: string): (r: seq<string>)
    ensures |r| == |components|
    ensures forall i :: 0 <= i < |r| ==> r[i] == firstKey
  {
    seq(|components|, i => firstKey)
  }

  /** As written, component compatibility only compares how many components the glyphs have. */
  lemma ComponentStructureAsWrittenCounts(a: seq<Component>, b: seq<Component>, firstKey: string)
    ensures ComponentStructureAsWritten(a, firstKey) == ComponentStructureAsWritten(b, firstKey) <==> |a| == |b|
  {
    var sa, sb := ComponentStructureAsWritten(a, firstKey), ComponentStructureAsWritten(b, firstKey);
    if |a| == |b| {
      assert forall i :: 0 <= i < |sa| ==> sa[i] == sb[i];
    }
  }

  /** Two glyphs whose single components have different base glyphs: compatible as written,
      incompatible once corrected. */
  lemma ComponentStructureAsWrittenExample(firstKey: string)
    ensures var a := [Component("a", Transform(1.0, 0.0, 0.0, 1.0, 0.0, 0.0), None)];
      var b := [Component("b", Transform(1.0, 0.0, 0.0, 1.0, 0.0, 0.0), None)];
      ComponentStructureAsWritten(a, firstKey) == ComponentStructureAsWritten(b, firstKey)
        && ComponentStructure(a) != ComponentStructure(b)
  {
    var a := [Component("a", Transform(1.0, 0.0, 0.0, 1.0, 0.0, 0.0), None)];
    var b := [Component("b", Transform(1.0, 0.0, 0.0, 1.0, 0.0, 0.0), None)];
    ComponentStructureAsWrittenCounts(a, b, firstKey);
    assert ComponentStructure(a)[0] != ComponentStructure(b)[0];
  }
}
