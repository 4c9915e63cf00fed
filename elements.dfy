/**
  The editor's elements: the records addElement and addPenElement store, the
  per-kind hit test of isPointInElement, the single resize handle of
  checkResizeHandle, and the in-place edits of resizeElement, the drag and the
  restyle operations, each written as a function from the old record to the
  new one.
*/
module Elements {
  import opened Wrappers
  import opened Geometry

  /** The `type` tags of the records addElement creates. */
  datatype Kind = Rect | Circle | Line | Arrow | Text

  /**
    The width `ctx.measureText(text).width` reports for `text` drawn in a
    `${fontSize}px Arial` font.
  */
  type Metrics = (string, int) -> real

  /** The editor's current drawing settings, copied into each new element. */
  datatype Style = Style(color: string, secondaryColor: string, strokeWidth: int, arrowSize: int, fontSize: int)

  /**
    A stored element. A Figure is what addElement builds (every kind gets all
    twelve fields); a Stroke is what addPenElement builds (type 'pen', no
    origin and no extents).
  */
  datatype Element =
    | Figure(id: real, kind: Kind, x: real, y: real, width: real, height: real,
             color: string, secondaryColor: string, strokeWidth: int, arrowSize: int,
             fontSize: int, text: string)
    | Stroke(id: real, path: seq<Point>, color: string, secondaryColor: string, strokeWidth: int)

  function Min(a: real, b: real): real {
    if a <= b then a else b
  }

  function Max(a: real, b: real): real {
    if a >= b then a else b
  }

  function Abs(a: real): real {
    if a < 0.0 then -a else a
  }

  predicate IsBox(k: Kind) {
    k == Rect || k == Circle
  }

  predicate IsSegment(k: Kind) {
    k == Line || k == Arrow
  }

  /** Rectangles and circles never have a negative extent. */
  predicate Upright(e: Element) {
    e.Figure? && IsBox(e.kind) ==> e.width >= 0.0 && e.height >= 0.0
  }

  predicate AllUpright(elements: seq<Element>) {
    forall i :: 0 <= i < |elements| ==> Upright(elements[i])
  }

  /** The two numbers {a, b} are the ends of [lo, lo + ext]. */
  predicate Spans(lo: real, ext: real, a: real, b: real) {
    ext >= 0.0 && ((lo == a && lo + ext == b) || (lo == b && lo + ext == a))
  }

  /**
    addElement exactly as written: every field is first filled in the box
    manner (min corner, absolute extents); text then only overrides `y`, and
    line and arrow override all four with the start point and signed deltas.
    Text is created with the second anchor at (0, 0), so its `x` ends up as
    min(x1, 0) rather than the click point.
  */
  function NewFigureAsWritten(kind: Kind, x1: real, y1: real, x2: real, y2: real, text: string, id: real, style: Style): (e: Element)
    ensures e.Figure? && e.kind == kind && e.id == id && e.text == text
    ensures kind == Text ==> e.x == Min(x1, x2) && e.y == y1
  {
    var e := Figure(id, kind, Min(x1, x2), Min(y1, y2), Abs(x2 - x1), Abs(y2 - y1),
                    style.color, style.secondaryColor, style.strokeWidth, style.arrowSize, style.fontSize, text);
    if kind == Text then e.(y := y1)
    else if IsSegment(kind) then e.(x := x1, y := y1, width := x2 - x1, height := y2 - y1)
    else e
  }

  /** A text created at a click right of the left edge lands at the left edge. */
  lemma TextOriginAsWritten()
    ensures NewFigureAsWritten(Text, 120.0, 40.0, 0.0, 0.0, "note", 1.0, Style("#000000", "#ffffff", 2, 10, 24)).x == 0.0
  {
  }

  /**
    addElement with the text origin as intended: the click point is the text's
    baseline origin. Box kinds span both anchors with non-negative extents;
    line and arrow run from the first anchor to the second.
  */
  function NewFigure(kind: Kind, x1: real, y1: real, x2: real, y2: real, text: string, id: real, style: Style): (e: Element)
    ensures e.Figure? && e.kind == kind && e.id == id && e.text == text
    ensures e.color == style.color && e.secondaryColor == style.secondaryColor && e.strokeWidth == style.strokeWidth
    ensures e.arrowSize == style.arrowSize && e.fontSize == style.fontSize
    ensures IsBox(kind) ==> Spans(e.x, e.width, x1, x2) && Spans(e.y, e.height, y1, y2)
    ensures IsSegment(kind) ==> e.x == x1 && e.y == y1 && e.x + e.width == x2 && e.y + e.height == y2
    ensures kind == Text ==> e.x == x1 && e.y == y1
    ensures Upright(e)
  {
    var e := NewFigureAsWritten(kind, x1, y1, x2, y2, text, id, style);
    if kind == Text then e.(x := x1) else e
  }

  /** addPenElement: a copy of the path in the current style. */
  function NewStroke(path: seq<Point>, id: real, style: Style): (e: Element)
    ensures e.Stroke? && e.path == path && e.id == id && Upright(e)
    ensures e.color == style.color && e.secondaryColor == style.secondaryColor && e.strokeWidth == style.strokeWidth
  {
    Stroke(id, path, style.color, style.secondaryColor, style.strokeWidth)
  }

  /** The worked creation example: a rectangle normalises, a line keeps its raw deltas. */
  lemma CreationExample(style: Style)
    ensures var r := NewFigure(Rect, 50.0, 40.0, 10.0, 10.0, "", 1.0, style);
      r.x == 10.0 && r.y == 10.0 && r.width == 40.0 && r.height == 30.0
    ensures var l := NewFigure(Line, 50.0, 40.0, 10.0, 10.0, "", 1.0, style);
      l.x == 50.0 && l.y == 40.0 && l.width == -40.0 && l.height == -30.0
  {
  }

  /** The tolerance of the pen test: the editor's current stroke width plus 5. */
  function PenTolerance(strokeWidth: int): real {
    (strokeWidth + 5) as real
  }

  /** Some consecutive pair of path points has the point within `tol` of its segment. */
  predicate NearPath(path: seq<Point>, p: Point, tol: real) {
    exists i :: 1 <= i < |path| && WithinDistance(p, path[i - 1], path[i], tol)
  }

  /**
    isPointInElement: text by its measured box above the baseline, line and
    arrow within 5 of the segment, a pen stroke within the editor's stroke
    width plus 5 of one of its segments, anything else by its box, inclusively.
  */
  predicate Hits(e: Element, p: Point, measure: Metrics, strokeWidth: int) {
    match e
    case Figure(_, kind, x, y, w, h, _, _, _, _, fs, text) =>
      if kind == Text then
        x <= p.x <= x + measure(text, fs) && y - fs as real <= p.y <= y
      else if IsSegment(kind) then
        WithinDistance(p, Point(x, y), Point(x + w, y + h), 5.0)
      else
        InBox(p, x, y, w, h)
    case Stroke(_, path, _, _, _) =>
      NearPath(path, p, PenTolerance(strokeWidth))
  }

  /** The two ends of a line or an arrow. */
  function SegmentStart(e: Element): Point
    requires e.Figure?
  {
    Point(e.x, e.y)
  }

  function SegmentEnd(e: Element): Point
    requires e.Figure?
  {
    Point(e.x + e.width, e.y + e.height)
  }

  /** A line or an arrow is hit exactly when some point of it lies within 5 of the pointer. */
  lemma LineHitMeaning(e: Element, p: Point, measure: Metrics, strokeWidth: int)
    requires e.Figure? && IsSegment(e.kind)
    ensures Hits(e, p, measure, strokeWidth) <==>
      exists t :: 0.0 <= t <= 1.0 &&
        DistSq(p, Lerp(SegmentStart(e), SegmentEnd(e), t)) <= 25.0
  {
    WithinDistanceMeaning(p, SegmentStart(e), SegmentEnd(e), 5.0);
  }

  /** A rectangle or circle drawn in any direction is hit exactly between its two anchors. */
  lemma BoxHitBetweenAnchors(kind: Kind, x1: real, y1: real, x2: real, y2: real, id: real, style: Style,
                             p: Point, measure: Metrics, strokeWidth: int)
    requires IsBox(kind)
    ensures Hits(NewFigure(kind, x1, y1, x2, y2, "", id, style), p, measure, strokeWidth) <==>
      Min(x1, x2) <= p.x <= Max(x1, x2) && Min(y1, y2) <= p.y <= Max(y1, y2)
  {
  }

  /** Exchanging a line's ends (drawing it the other way) hits the same points. */
  lemma LineHitReversible(kind: Kind, x1: real, y1: real, x2: real, y2: real, id: real, style: Style,
                          p: Point, measure: Metrics, strokeWidth: int)
    requires IsSegment(kind)
    ensures Hits(NewFigure(kind, x1, y1, x2, y2, "", id, style), p, measure, strokeWidth) ==
            Hits(NewFigure(kind, x2, y2, x1, y1, "", id, style), p, measure, strokeWidth)
  {
    ClosestPointSymmetric(p, Point(x1, y1), Point(x2, y2));
  }

  /** The point checkResizeHandle tests around; a pen stroke has none. */
  function HandleAnchor(e: Element, measure: Metrics): (a: Option<Point>)
    ensures a.None? <==> e.Stroke?
    ensures e.Figure? && e.kind == Text ==> a == Some(Point(e.x + measure(e.text, e.fontSize), e.y))
    ensures e.Figure? && e.kind != Text ==> a == Some(Point(e.x + e.width, e.y + e.height))
  {
    match e
    case Figure(_, kind, x, y, w, h, _, _, _, _, fs, text) =>
      if kind == Text then Some(Point(x + measure(text, fs), y)) else Some(Point(x + w, y + h))
    case Stroke(_, _, _, _, _) => None
  }

  const HandleSize: real := 8.0

  /** The pointer lies in the closed square of half-size 8 around the element's handle. */
  predicate OnHandle(e: Element, p: Point, measure: Metrics) {
    match HandleAnchor(e, measure)
    case None => false
    case Some(a) =>
      a.x - HandleSize <= p.x <= a.x + HandleSize && a.y - HandleSize <= p.y <= a.y + HandleSize
  }

  /** The worked handle example: a 100 by 50 rectangle at the origin. */
  lemma HandleExample(measure: Metrics, style: Style)
    ensures var r := NewFigure(Rect, 0.0, 0.0, 100.0, 50.0, "", 1.0, style);
      OnHandle(r, Point(100.0, 50.0), measure) && !OnHandle(r, Point(50.0, 25.0), measure)
  {
  }

  /** `Math.round`: the nearest integer, halves rounded up. */
  function Round(v: real): (n: int)
    ensures n as real <= v + 0.5 < n as real + 1.0
  {
    (v + 0.5).Floor
  }

  /** `Math.max(8, Math.min(200, v))`. */
  function ClampFontSize(v: real): (r: real)
    ensures 8.0 <= r <= 200.0
    ensures 8.0 <= v <= 200.0 ==> r == v
    ensures v > 200.0 ==> r == 200.0
    ensures v < 8.0 ==> r == 8.0
  {
    Max(8.0, Min(200.0, v))
  }

  /**
    The font size resizeElement computes from the measured width and the
    new width, which its guard keeps above 10. A zero measured width makes the scale infinite, which clamps to
    200 (or to 8 for a negative size); a zero size times an infinite scale is
    not a number, and the size is then kept.
  */
  function ScaledFontSize(fontSize: int, measured: real, newWidth: real): (r: int)
    requires newWidth > 10.0
    ensures (measured > 0.0 || measured < 0.0 || fontSize > 0 || fontSize < 0) ==> 8 <= r <= 200
    ensures measured > 0.0 || measured < 0.0 ==>
      var q := fontSize as real * (newWidth / measured);
      (8.0 <= q <= 200.0 ==> q - 0.5 < r as real <= q + 0.5) &&
      (q > 200.0 ==> r == 200) && (q < 8.0 ==> r == 8)
    ensures !(measured > 0.0 || measured < 0.0) ==>
      (fontSize > 0 ==> r == 200) && (fontSize < 0 ==> r == 8) && (fontSize == 0 ==> r == fontSize)
  {
    if measured > 0.0 || measured < 0.0 then Round(ClampFontSize(fontSize as real * (newWidth / measured)))
    else if fontSize > 0 then 200
    else if fontSize < 0 then 8
    else fontSize
  }

  /**
    resizeElement on the selected element, dragging its handle to `p`: a text
    rescales its font when dragged more than 10 right of its origin; a line or
    arrow moves its end to the pointer; a box moves its far corner to the
    pointer but keeps each extent at least 5. The origin never moves.
  */
  function Resized(e: Element, p: Point, measure: Metrics): (r: Element)
    ensures r.Stroke? ==> r == e
    ensures r.Figure? ==> e.Figure? && r == e.(width := r.width, height := r.height, fontSize := r.fontSize)
    ensures e.Figure? && IsBox(e.kind) ==>
      r.width >= 5.0 && r.height >= 5.0 && r.x + r.width >= p.x && r.y + r.height >= p.y &&
      (p.x - e.x >= 5.0 ==> r.x + r.width == p.x) && (p.y - e.y >= 5.0 ==> r.y + r.height == p.y) &&
      (p.x - e.x < 5.0 ==> r.width == 5.0) && (p.y - e.y < 5.0 ==> r.height == 5.0)
    ensures e.Figure? && IsSegment(e.kind) ==> r.x + r.width == p.x && r.y + r.height == p.y
    ensures e.Figure? && e.kind != Text ==> r.fontSize == e.fontSize
    ensures e.Figure? && e.kind == Text ==> r.width == e.width && r.height == e.height
    ensures e.Figure? && e.kind == Text && p.x - e.x > 10.0 ==>
      r.fontSize == ScaledFontSize(e.fontSize, measure(e.text, e.fontSize), p.x - e.x)
    ensures e.Figure? && e.kind == Text && p.x - e.x <= 10.0 ==> r == e
    ensures e.Figure? && e.kind == Text && r.fontSize != e.fontSize ==>
      p.x - e.x > 10.0 && 8 <= r.fontSize <= 200
    ensures Upright(r)
  {
    match e
    case Figure(_, kind, x, y, w, h, _, _, _, _, fs, text) =>
      if kind == Text then
        var newWidth := p.x - x;
        if newWidth > 10.0 then e.(fontSize := ScaledFontSize(fs, measure(text, fs), newWidth)) else e
      else if IsSegment(kind) then
        e.(width := p.x - x, height := p.y - y)
      else
        e.(width := Max(5.0, p.x - x), height := Max(5.0, p.y - y))
    case Stroke(_, _, _, _, _) => e
  }

  /** After a resize of a line, an arrow, or a box beyond its minimum, the handle is under the pointer. */
  lemma HandleFollowsPointer(e: Element, p: Point, measure: Metrics)
    requires e.Figure? && (IsSegment(e.kind) || (IsBox(e.kind) && p.x - e.x >= 5.0 && p.y - e.y >= 5.0))
    ensures OnHandle(Resized(e, p, measure), p, measure)
  {
  }

  /** A drag sets the origin of a figure; a pen stroke has no origin and stays where it is. */
  function Moved(e: Element, x: real, y: real): (r: Element)
    ensures e.Figure? ==> r == e.(x := x, y := y)
    ensures e.Stroke? ==> r == e
    ensures Upright(r) == Upright(e)
  {
    match e
    case Figure(_, _, _, _, _, _, _, _, _, _, _, _) => e.(x := x, y := y)
    case Stroke(_, _, _, _, _) => e
  }

  /** Grabbing a box at `grab` and dragging to `p` moves it by exactly p - grab and keeps its size. */
  lemma DragTranslates(e: Element, grab: Point, p: Point, measure: Metrics, strokeWidth: int)
    requires e.Figure? && IsBox(e.kind)
    ensures var m := Moved(e, p.x - (grab.x - e.x), p.y - (grab.y - e.y));
      m.x == e.x + (p.x - grab.x) && m.y == e.y + (p.y - grab.y) &&
      m.width == e.width && m.height == e.height &&
      (Hits(e, grab, measure, strokeWidth) ==> Hits(m, p, measure, strokeWidth))
  {
  }

  /** A line or arrow grabbed at `grab` and dragged to `p` is still under the pointer. */
  lemma SegmentDragTranslates(e: Element, grab: Point, p: Point, measure: Metrics, strokeWidth: int)
    requires e.Figure? && IsSegment(e.kind)
    ensures var m := Moved(e, p.x - (grab.x - e.x), p.y - (grab.y - e.y));
      m.width == e.width && m.height == e.height &&
      (Hits(e, grab, measure, strokeWidth) ==> Hits(m, p, measure, strokeWidth))
  {
    var dx, dy := p.x - grab.x, p.y - grab.y;
    var m := Moved(e, p.x - (grab.x - e.x), p.y - (grab.y - e.y));
    assert Shift(grab, dx, dy) == p;
    assert Shift(SegmentStart(e), dx, dy) == SegmentStart(m);
    assert Shift(SegmentEnd(e), dx, dy) == SegmentEnd(m);
    ClosestPointShift(grab, SegmentStart(e), SegmentEnd(e), dx, dy);
  }

  function WithColor(e: Element, c: string): (r: Element)
    ensures r.color == c && r == e.(color := c)
    ensures Upright(r) == Upright(e)
  {
    e.(color := c)
  }

  function WithSecondaryColor(e: Element, c: string): (r: Element)
    ensures r.secondaryColor == c && r == e.(secondaryColor := c)
    ensures Upright(r) == Upright(e)
  {
    e.(secondaryColor := c)
  }

  function WithStrokeWidth(e: Element, w: int): (r: Element)
    ensures r.strokeWidth == w && r == e.(strokeWidth := w)
    ensures Upright(r) == Upright(e)
  {
    e.(strokeWidth := w)
  }

  /** Only arrows carry a head size the editor changes. */
  function WithArrowSize(e: Element, s: int): (r: Element)
    ensures e.Figure? && e.kind == Arrow ==> r == e.(arrowSize := s)
    ensures !(e.Figure? && e.kind == Arrow) ==> r == e
    ensures Upright(r) == Upright(e)
  {
    if e.Figure? && e.kind == Arrow then e.(arrowSize := s) else e
  }

  /** The two elements agree on every field a hit test reads. */
  predicate SameGeometry(e: Element, f: Element) {
    match e
    case Figure(_, kind, x, y, w, h, _, _, _, _, fs, text) =>
      f.Figure? && f.kind == kind && f.x == x && f.y == y && f.width == w && f.height == h &&
      f.fontSize == fs && f.text == text
    case Stroke(_, path, _, _, _) =>
      f.Stroke? && f.path == path
  }

  lemma SameGeometryHits(e: Element, f: Element, p: Point, measure: Metrics, strokeWidth: int)
    requires SameGeometry(e, f)
    ensures Hits(f, p, measure, strokeWidth) == Hits(e, p, measure, strokeWidth)
  {
  }

  /** A restyle leaves every hit test as it was. */
  lemma RestyleKeepsHits(e: Element, c: string, w: int, s: int, p: Point, measure: Metrics, strokeWidth: int)
    ensures Hits(WithColor(e, c), p, measure, strokeWidth) == Hits(e, p, measure, strokeWidth)
    ensures Hits(WithSecondaryColor(e, c), p, measure, strokeWidth) == Hits(e, p, measure, strokeWidth)
    ensures Hits(WithStrokeWidth(e, w), p, measure, strokeWidth) == Hits(e, p, measure, strokeWidth)
    ensures Hits(WithArrowSize(e, s), p, measure, strokeWidth) == Hits(e, p, measure, strokeWidth)
  {
    SameGeometryHits(e, WithColor(e, c), p, measure, strokeWidth);
    SameGeometryHits(e, WithSecondaryColor(e, c), p, measure, strokeWidth);
    SameGeometryHits(e, WithStrokeWidth(e, w), p, measure, strokeWidth);
    SameGeometryHits(e, WithArrowSize(e, s), p, measure, strokeWidth);
  }

  /**
    selectElement's answer: the highest index whose element is hit, found by
    scanning from the last element down, or None when none is hit.
  */
  function Topmost(elements: seq<Element>, p: Point, measure: Metrics, strokeWidth: int): (r: Option<nat>)
    ensures r.Some? ==> r.value < |elements| && Hits(elements[r.value], p, measure, strokeWidth)
    ensures r.Some? ==> forall j :: r.value < j < |elements| ==> !Hits(elements[j], p, measure, strokeWidth)
    ensures r.None? <==> forall j :: 0 <= j < |elements| ==> !Hits(elements[j], p, measure, strokeWidth)
  {
    if |elements| == 0 then None
    else if Hits(elements[|elements| - 1], p, measure, strokeWidth) then Some(|elements| - 1)
    else Topmost(elements[..|elements| - 1], p, measure, strokeWidth)
  }

  /** Of two overlapping elements the later one wins, whatever lies below. */
  lemma TopmostWins(elements: seq<Element>, i: nat, j: nat, p: Point, measure: Metrics, strokeWidth: int)
    requires i < j < |elements|
    requires Hits(elements[i], p, measure, strokeWidth) && Hits(elements[j], p, measure, strokeWidth)
    ensures Topmost(elements, p, measure, strokeWidth).Some?
    ensures Topmost(elements, p, measure, strokeWidth).value != i
    ensures Topmost(elements, p, measure, strokeWidth).value >= j
  {
  }
}
