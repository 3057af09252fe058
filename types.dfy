/** Values shared by every part of the glyph-math model. */
module Types {

  datatype Option<+T> = None | Some(value: T)

  datatype Result<+T, +E> = Ok(value: T) | Err(error: E)

  /** Segment type of a point event; `OffCurve` stands for the absent (None) segment type. */
  datatype SegmentType = Move | Line | Curve | QCurve | OffCurve

  /** A coordinate. Exact numbers, so that the filter's equality test means what it says. */
  datatype Pt = Pt(x: real, y: real)

  /** One point of a contour: segment type, coordinate, smooth flag and point name. */
  datatype PointRec = PointRec(seg: SegmentType, pt: Pt, smooth: bool, name: Option<string>)

  type Contour = seq<PointRec>

  /** The synthetic off-curve control the outline normaliser inserts. */
  function OffCurveAt(pt: Pt): PointRec
  {
    PointRec(OffCurve, pt, false, None)
  }

  /** The six values of a component transformation, in the source's tuple order. */
  datatype Transform = Transform(xScale: real, xyScale: real, yxScale: real, yScale: real, xOffset: real, yOffset: real)

  datatype Component = Component(baseGlyph: string, transformation: Transform, identifier: Option<string>)

  datatype Anchor = Anchor(name: Option<string>, x: real, y: real, identifier: Option<string>, color: Option<string>)

  /** Opaque lib values: only copied, never interpreted. */
  datatype LibValue = LibNumber(n: real) | LibString(s: string) | LibBool(b: bool) | LibNone

  /** The shallow glyph used for math. */
  datatype MathGlyph = MathGlyph(
    name: Option<string>,
    unicodes: Option<seq<int>>,
    width: real,
    note: Option<string>,
    lib: map<string, LibValue>,
    contours: seq<Contour>,
    components: seq<Component>,
    anchors: seq<Anchor>,
    generationCount: nat)

  /** The exceptions the glyph math can raise. */
  datatype MathError = IndexOutOfRange | ZeroDivision | UndefinedName | MissingArgument | TooManyValuesToUnpack
}
