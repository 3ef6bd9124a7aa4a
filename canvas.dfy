/**
 * The drawing surface laid over the page: freehand strokes (begin, extend,
 * end), the two-tap line tool with its dashed preview, and the choice
 * between painting and erasing.  The raster is modelled as the sequence of
 * straight segments stroked onto it, in order.
 */
module Canvas {
  import opened Common
  import opened DrawingConfig

  /** The canvas compositing operation: paint over, or cut out (erase). */
  datatype Composite = SourceOver | DestinationOut

  /** One straight piece of ink (or of erasure) stroked onto the raster. */
  datatype Segment = Segment(from: Point, to: Point, color: string, width: int, op: Composite)

  /** The 2D context's stroke style: `strokeStyle`, `lineWidth`, `globalCompositeOperation`. */
  datatype Pen = Pen(color: string, width: int, op: Composite)

  /** A fresh 2D context strokes in opaque black, one pixel wide, painting over. */
  const DefaultPen: Pen := Pen("#000000", 1, SourceOver)

  /** The dashed line shown between the first tap and the pointer. */
  datatype Preview = Preview(start: Point, end: Point)

  /** Erasing cuts the stroke out of the raster; otherwise it is painted over it. */
  function CompositeFor(ds: DrawingState): (r: Composite)
    ensures r == DestinationOut <==> ds.isErasing
  {
    if ds.isErasing then DestinationOut else SourceOver
  }

  /** The pen the current tool configuration selects. */
  function PenFor(ds: DrawingState): Pen
  {
    Pen(ds.color, ds.brushSize, CompositeFor(ds))
  }

  /**
   * The raster left by `clearRect` followed by `drawImage` of a saved
   * raster under the composite `op`.  The cleared raster is transparent, so
   * painting the image over it reproduces the image, while cutting the
   * image out of it leaves it blank; with no image it stays cleared.
   */
  function Redrawn(op: Composite, image: Option<seq<Segment>>): (r: seq<Segment>)
    ensures op == SourceOver ==> r == (if image.Some? then image.value else [])
    ensures op == DestinationOut ==> r == []
  {
    match (op, image)
    case (SourceOver, Some(raster)) => raster
    case _ => []
  }

  /** A saved raster with any ink in it is lost when it is restored under the eraser's composite. */
  lemma ErasingCompositeLosesRaster(raster: seq<Segment>)
    requires raster != []
    ensures Redrawn(DestinationOut, Some(raster)) != raster
    ensures Redrawn(SourceOver, Some(raster)) == raster
  {
  }

  /** Everything the surface holds, as one value. */
  datatype SurfaceState = SurfaceState(
    isDrawing: bool,
    isLineDrawing: bool,
    lineStart: Option<Point>,
    lastPoint: Option<Point>,
    linePreview: Option<Preview>,
    strokes: seq<Segment>,
    pen: Pen,
    pathEnd: Option<Point>)

  /**
   * The segments of a freehand stroke begun at `start` and moved through
   * `points`: each piece runs from the previous point to the next one.
   * This is the reference geometry that `DrawFreehand`'s loop is proved
   * against, so its contract spells the pieces out one by one.
   */
  function Polyline(start: Point, points: seq<Point>, pen: Pen): (r: seq<Segment>)
    ensures |r| == |points|
    ensures forall k :: 0 <= k < |points| ==>
      r[k] == Segment(if k == 0 then start else points[k - 1], points[k], pen.color, pen.width, pen.op)
  {
    seq(|points|, k requires 0 <= k < |points| =>
      Segment(if k == 0 then start else points[k - 1], points[k], pen.color, pen.width, pen.op))
  }

  /**
   * The drawing canvas component: its five pieces of React state, the
   * raster, and the parts of the 2D context the handlers rely on (the
   * stroke style and where the current path ends).
   */
  class DrawingCanvas {
    var isDrawing: bool
    var isLineDrawing: bool
    var lineStart: Option<Point>
    var lastPoint: Option<Point>
    var linePreview: Option<Preview>
    var strokes: seq<Segment>
    var pen: Pen
    var pathEnd: Option<Point>

    /**
     * A freehand stroke is in progress exactly when its last point is
     * known, and it always has a path to extend; a line is pending exactly
     * when its start point is known; a preview only exists for the pending
     * line and starts where it starts.
     */
    predicate Valid()
      reads this
    {
      && (isDrawing <==> lastPoint.Some?)
      && (isDrawing ==> pathEnd.Some?)
      && (isLineDrawing <==> lineStart.Some?)
      && (linePreview.Some? ==> isLineDrawing && linePreview.value.start == lineStart.value)
    }

    function State(): SurfaceState
      reads this
    {
      SurfaceState(isDrawing, isLineDrawing, lineStart, lastPoint, linePreview, strokes, pen, pathEnd)
    }

    /** A freshly mounted canvas: blank, idle, with the context's default pen. */
    constructor()
      ensures Valid()
      ensures State() == SurfaceState(false, false, None, None, None, [], DefaultPen, None)
    {
      isDrawing, isLineDrawing := false, false;
      lineStart, lastPoint, linePreview := None, None, None;
      strokes, pen, pathEnd := [], DefaultPen, None;
    }

    /**
     * `startDrawing` (pointer down).  Nothing happens unless drawing is
     * enabled.  In line mode the first tap records where the line starts
     * and the second strokes exactly one segment from there to the tap,
     * leaves the pending state and asks for a history commit.  Otherwise
     * a freehand stroke begins at the tap with the current pen.
     */
    method StartDrawing(ds: DrawingState, pos: Point) returns (commit: bool)
      requires Valid()
      modifies this
      ensures Valid()
      ensures !ds.isDrawing ==> !commit && State() == old(State())
      ensures ds.isDrawing && ds.isLineMode && !old(isLineDrawing) ==>
        !commit && State() == old(State()).(isLineDrawing := true, lineStart := Some(pos), linePreview := None)
      ensures ds.isDrawing && ds.isLineMode && old(isLineDrawing) ==>
        && commit
        && strokes == old(strokes) + [Segment(old(lineStart).value, pos, ds.color, ds.brushSize, CompositeFor(ds))]
        && State() == old(State()).(isLineDrawing := false, lineStart := None, linePreview := None,
                                    strokes := strokes, pen := PenFor(ds), pathEnd := Some(pos))
      ensures ds.isDrawing && !ds.isLineMode ==>
        !commit && State() == old(State()).(isDrawing := true, lastPoint := Some(pos), pen := PenFor(ds), pathEnd := Some(pos))
    {
      commit := false;
      if !ds.isDrawing {
        return;
      }
      if ds.isLineMode {
        if !isLineDrawing {
          isLineDrawing := true;
          lineStart := Some(pos);
          linePreview := None;
        } else if lineStart.Some? {
          pen := PenFor(ds);
          strokes := strokes + [Segment(lineStart.value, pos, pen.color, pen.width, pen.op)];
          pathEnd := Some(pos);
          isLineDrawing := false;
          lineStart := None;
          linePreview := None;
          commit := true;
        }
      } else {
        isDrawing := true;
        lastPoint := Some(pos);
        pathEnd := Some(pos);
        pen := PenFor(ds);
      }
    }

    /**
     * `continueDrawing` (pointer move).  While a line is pending in line
     * mode only the preview follows the pointer; during a freehand stroke
     * the path is extended to the pointer with the pen chosen when the
     * stroke began.  The raster never changes in any other case.
     */
    method ContinueDrawing(ds: DrawingState, pos: Point)
      requires Valid()
      modifies this
      ensures Valid()
      ensures !ds.isDrawing ==> State() == old(State())
      ensures ds.isDrawing && ds.isLineMode && old(isLineDrawing) ==>
        State() == old(State()).(linePreview := Some(Preview(old(lineStart).value, pos)))
      ensures ds.isDrawing && ds.isLineMode && !old(isLineDrawing) ==> State() == old(State())
      ensures ds.isDrawing && !ds.isLineMode && old(isDrawing) ==>
        var p := old(pen);
        State() == old(State()).(strokes := old(strokes) + [Segment(old(pathEnd).value, pos, p.color, p.width, p.op)],
                                 lastPoint := Some(pos), pathEnd := Some(pos))
      ensures ds.isDrawing && !ds.isLineMode && !old(isDrawing) ==> State() == old(State())
    {
      if !ds.isDrawing {
        return;
      }
      if ds.isLineMode && isLineDrawing && lineStart.Some? {
        linePreview := Some(Preview(lineStart.value, pos));
      } else if !ds.isLineMode && isDrawing && lastPoint.Some? && pathEnd.Some? {
        strokes := strokes + [Segment(pathEnd.value, pos, pen.color, pen.width, pen.op)];
        pathEnd := Some(pos);
        lastPoint := Some(pos);
      }
    }

    /**
     * `stopDrawing` (pointer up or leaving the canvas).  Ignored in line
     * mode and while drawing is disabled; otherwise the freehand stroke
     * ends and a history commit is requested, whether or not a stroke was
     * in progress.
     */
    method StopDrawing(ds: DrawingState) returns (commit: bool)
      requires Valid()
      modifies this
      ensures Valid()
      ensures commit <==> ds.isDrawing && !ds.isLineMode
      ensures !commit ==> State() == old(State())
      ensures commit ==> State() == old(State()).(isDrawing := false, lastPoint := None)
    {
      commit := false;
      if !ds.isDrawing || ds.isLineMode {
        return;
      }
      isDrawing := false;
      lastPoint := None;
      commit := true;
    }

    /**
     * `handleCanvasClick`: whether a click asks for the selection to be
     * cleared.  `onBackground` is whether the click landed on the page
     * container or a canvas rather than on an element.
     */
    method CanvasClick(ds: DrawingState, onBackground: bool) returns (clear: bool)
      ensures clear <==> !ds.isDrawing && !isDrawing && !isLineDrawing && onBackground
    {
      clear := !ds.isDrawing && !isDrawing && !isLineDrawing && onBackground;
    }

    /**
     * Undo/redo's restore as written: `clearRect`, then `drawImage` of the
     * saved raster under whatever composite the last stroke left on the
     * context (or only `clearRect` when there is no saved raster).
     */
    method RestoreAsWritten(image: Option<seq<Segment>>)
      requires Valid()
      modifies this
      ensures Valid()
      ensures State() == old(State()).(strokes := Redrawn(old(pen.op), image))
      ensures old(pen.op) == DestinationOut ==> strokes == []
    {
      strokes := Redrawn(pen.op, image);
    }

    /**
     * The restore with the composite set back to painting over before the
     * saved raster is drawn: the raster becomes the saved one (or blank when
     * there is none), whatever tool was used last, and nothing else on the
     * surface changes.
     */
    method Restore(image: Option<seq<Segment>>)
      requires Valid()
      modifies this
      ensures Valid()
      ensures State() == old(State()).(strokes := if image.Some? then image.value else [],
                                       pen := old(pen).(op := SourceOver))
    {
      pen := pen.(op := SourceOver);
      strokes := Redrawn(pen.op, image);
    }
  }

  /**
   * The two-tap line protocol: a first tap, any number of pointer moves
   * (which only move the preview), and a second tap stroke exactly one
   * segment from the first tap to the second and request a commit only
   * on the second tap.
   */
  method DrawLine(c: DrawingCanvas, ds: DrawingState, first: Point, moves: seq<Point>, second: Point)
    returns (firstCommit: bool, secondCommit: bool)
    requires c.Valid() && !c.isLineDrawing
    requires ds.isDrawing && ds.isLineMode
    modifies c
    ensures c.Valid()
    ensures !firstCommit && secondCommit
    ensures c.strokes == old(c.strokes) + [Segment(first, second, ds.color, ds.brushSize, CompositeFor(ds))]
    ensures !c.isLineDrawing && c.linePreview.None?
  {
    firstCommit := c.StartDrawing(ds, first);
    var i := 0;
    while i < |moves|
      invariant 0 <= i <= |moves|
      invariant c.Valid() && c.isLineDrawing && c.lineStart == Some(first)
      invariant c.strokes == old(c.strokes)
    {
      c.ContinueDrawing(ds, moves[i]);
      i := i + 1;
    }
    secondCommit := c.StartDrawing(ds, second);
  }

  /**
   * A freehand stroke: pointer down at `start`, moves through `points`,
   * pointer up.  The raster gains the polyline through those points in
   * the pen the tools selected at pointer down, and a commit is requested
   * only at pointer up.
   */
  method DrawFreehand(c: DrawingCanvas, ds: DrawingState, start: Point, points: seq<Point>)
    returns (startCommit: bool, stopCommit: bool)
    requires c.Valid()
    requires ds.isDrawing && !ds.isLineMode
    modifies c
    ensures c.Valid()
    ensures !startCommit && stopCommit
    ensures c.strokes == old(c.strokes) + Polyline(start, points, PenFor(ds))
    ensures !c.isDrawing
  {
    startCommit := c.StartDrawing(ds, start);
    var i := 0;
    while i < |points|
      invariant 0 <= i <= |points|
      invariant c.Valid() && c.isDrawing && c.pen == PenFor(ds)
      invariant c.pathEnd == Some(if i == 0 then start else points[i - 1])
      invariant c.strokes == old(c.strokes) + Polyline(start, points[..i], PenFor(ds))
    {
      c.ContinueDrawing(ds, points[i]);
      assert Polyline(start, points[..i + 1], PenFor(ds)) == Polyline(start, points[..i], PenFor(ds))
        + [Segment(if i == 0 then start else points[i - 1], points[i], ds.color, ds.brushSize, CompositeFor(ds))];
      i := i + 1;
    }
    assert points[..|points|] == points;
    stopCommit := c.StopDrawing(ds);
  }
}
