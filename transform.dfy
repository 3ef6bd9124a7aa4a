/**
 * The gesture controller of one placed element: pressing its body, its
 * resize handle or its rotate handle starts a drag, a resize or a
 * rotation; pointer moves turn the gesture into an update of the
 * element's geometry; releasing the pointer ends it and asks for a
 * history commit.  Angles around the element's centre are inputs here.
 */
module Transform {
  import opened Common
  import opened Scene

  /** The smallest width or height a resize leaves. */
  const MinSize: real := 20.0

  /**
   * One coordinate of a dragged element: the start coordinate moved by the
   * pointer's travel, kept between 0 and `extent - size`; an element wider
   * (or taller) than the page sticks to 0.
   */
  function DragAxis(start: real, delta: real, size: real, extent: real): (r: real)
    ensures 0.0 <= r
    ensures size <= extent ==> r <= extent - size
    ensures size > extent ==> r == 0.0
    ensures 0.0 <= start + delta <= extent - size ==> r == start + delta
    ensures start + delta < 0.0 ==> r == 0.0
    ensures size <= extent && extent - size < start + delta ==> r == extent - size
  {
    var capped := if extent - size < start + delta then extent - size else start + delta;
    if capped < 0.0 then 0.0 else capped
  }

  /** One side of a resized element: the start size grown by the pointer's travel, never below 20. */
  function ResizeDim(start: real, delta: real): (r: real)
    ensures r >= MinSize
    ensures start + delta >= MinSize ==> r == start + delta
    ensures start + delta < MinSize ==> r == MinSize
  {
    if start + delta > MinSize then start + delta else MinSize
  }

  /** The three handles of an element. */
  datatype Gesture = Drag | Resize | Rotate

  /** Where the pointer and the element were when a gesture began. */
  datatype DragStart = DragStart(x: real, y: real, elementX: real, elementY: real)
  datatype ResizeStart = ResizeStart(x: real, y: real, width: real, height: real)
  datatype RotateStart = RotateStart(angle: real, rotation: real)

  /** The update a drag asks for, given where it began and where the pointer is now. */
  function DragPatch(s: DragStart, el: Element, pos: Point): (p: Patch)
    ensures p == NoChange.(x := p.x, y := p.y) && p.x.Some? && p.y.Some?
    ensures 0.0 <= p.x.value && 0.0 <= p.y.value
    ensures el.width <= PageWidth ==> p.x.value + el.width <= PageWidth
    ensures el.height <= PageHeight ==> p.y.value + el.height <= PageHeight
  {
    NoChange.(x := Some(DragAxis(s.elementX, pos.x - s.x, el.width, PageWidth)),
              y := Some(DragAxis(s.elementY, pos.y - s.y, el.height, PageHeight)))
  }

  /**
   * A drag's target depends only on the pointer's total travel since the
   * gesture began: where the element has been moved to meanwhile, and
   * where the travel was measured from, make no difference.
   */
  lemma DragDependsOnTravelOnly(s: DragStart, el: Element, pos: Point, shift: Point, nx: real, ny: real)
    ensures DragPatch(s, el, pos) == DragPatch(s, el.(x := nx, y := ny), pos)
    ensures DragPatch(s, el, pos)
      == DragPatch(s.(x := s.x + shift.x, y := s.y + shift.y), el, Point(pos.x + shift.x, pos.y + shift.y))
  {
  }

  /** The update a resize asks for. */
  function ResizePatch(s: ResizeStart, pos: Point): (p: Patch)
    ensures p == NoChange.(width := p.width, height := p.height) && p.width.Some? && p.height.Some?
    ensures p.width.value >= MinSize && p.height.value >= MinSize
    ensures s.width + (pos.x - s.x) >= MinSize ==> p.width.value == s.width + (pos.x - s.x)
    ensures s.height + (pos.y - s.y) >= MinSize ==> p.height.value == s.height + (pos.y - s.y)
  {
    NoChange.(width := Some(ResizeDim(s.width, pos.x - s.x)), height := Some(ResizeDim(s.height, pos.y - s.y)))
  }

  /** The update a rotation asks for: the start rotation turned by the angle swept since, not normalised. */
  function RotatePatch(s: RotateStart, angle: real): (p: Patch)
    ensures p == NoChange.(rotation := p.rotation) && p.rotation.Some?
    ensures p.rotation.value - s.rotation == angle - s.angle
  {
    NoChange.(rotation := Some(s.rotation + (angle - s.angle)))
  }

  /** The gesture state of one element's component. */
  class TransformController {
    var isDragging: bool
    var isResizing: bool
    var isRotating: bool
    var dragStart: Option<DragStart>
    var resizeStart: Option<ResizeStart>
    var rotateStart: Option<RotateStart>

    /** No gesture is in progress and no start is recorded. */
    predicate Idle()
      reads this
    {
      !isDragging && !isResizing && !isRotating && dragStart.None? && resizeStart.None? && rotateStart.None?
    }

    constructor()
      ensures Idle()
    {
      isDragging, isResizing, isRotating := false, false, false;
      dragStart, resizeStart, rotateStart := None, None, None;
    }

    /**
     * `handlePointerDown` on a handle: asks for the element to be selected
     * when it is not, raises the handle's flag and records where the
     * gesture starts.  A rotation records its start only when the
     * element's on-screen box is known (`angle` is the pointer's angle
     * around the element's centre).
     */
    method PointerDown(el: Element, isSelected: bool, action: Gesture, pos: Point, angle: Option<real>)
      returns (select: bool)
      modifies this
      ensures select <==> !isSelected
      ensures action == Drag ==>
        && isDragging && dragStart == Some(DragStart(pos.x, pos.y, el.x, el.y))
        && unchanged(this`isResizing, this`isRotating, this`resizeStart, this`rotateStart)
      ensures action == Resize ==>
        && isResizing && resizeStart == Some(ResizeStart(pos.x, pos.y, el.width, el.height))
        && unchanged(this`isDragging, this`isRotating, this`dragStart, this`rotateStart)
      ensures action == Rotate ==>
        && isRotating
        && rotateStart == (if angle.Some? then Some(RotateStart(angle.value, el.rotation)) else old(rotateStart))
        && unchanged(this`isDragging, this`isResizing, this`dragStart, this`resizeStart)
    {
      select := !isSelected;
      match action
      case Drag =>
        isDragging := true;
        dragStart := Some(DragStart(pos.x, pos.y, el.x, el.y));
      case Resize =>
        isResizing := true;
        resizeStart := Some(ResizeStart(pos.x, pos.y, el.width, el.height));
      case Rotate =>
        isRotating := true;
        if angle.Some? {
          rotateStart := Some(RotateStart(angle.value, el.rotation));
        }
    }

    /**
     * `handlePointerMove`: the update the current gesture asks for, if
     * any.  A drag takes precedence over a resize, and a resize over a
     * rotation; a rotation needs the pointer's angle (`None` when the
     * element's box is unknown).  Moves change no gesture state, so every
     * update is computed from the start recorded at pointer down.
     */
    method PointerMove(el: Element, pos: Point, angle: Option<real>) returns (update: Option<Patch>)
      ensures isDragging && dragStart.Some? ==> update == Some(DragPatch(dragStart.value, el, pos))
      ensures !(isDragging && dragStart.Some?) && isResizing && resizeStart.Some? ==>
        update == Some(ResizePatch(resizeStart.value, pos))
      ensures !(isDragging && dragStart.Some?) && !(isResizing && resizeStart.Some?) ==>
        update == if isRotating && rotateStart.Some? && angle.Some? then Some(RotatePatch(rotateStart.value, angle.value)) else None
      ensures Idle() ==> update.None?
    {
      if isDragging && dragStart.Some? {
        update := Some(DragPatch(dragStart.value, el, pos));
      } else if isResizing && resizeStart.Some? {
        update := Some(ResizePatch(resizeStart.value, pos));
      } else if isRotating && rotateStart.Some? && angle.Some? {
        update := Some(RotatePatch(rotateStart.value, angle.value));
      } else {
        update := None;
      }
    }

    /** `handlePointerUp`: a commit is requested exactly when a gesture was in progress; all gestures end. */
    method PointerUp() returns (commit: bool)
      modifies this
      ensures commit <==> old(isDragging || isResizing || isRotating)
      ensures Idle()
    {
      commit := isDragging || isResizing || isRotating;
      isDragging, isResizing, isRotating := false, false, false;
      dragStart, resizeStart, rotateStart := None, None, None;
    }
  }

  /** From idle, pressing a handle starts exactly that handle's gesture. */
  method StartFromIdle(c: TransformController, el: Element, action: Gesture, pos: Point, angle: real)
    requires c.Idle()
    modifies c
    ensures c.isDragging <==> action == Drag
    ensures c.isResizing <==> action == Resize
    ensures c.isRotating <==> action == Rotate
    ensures c.dragStart.Some? <==> action == Drag
    ensures c.resizeStart.Some? <==> action == Resize
    ensures c.rotateStart.Some? <==> action == Rotate
  {
    var _ := c.PointerDown(el, true, action, pos, Some(angle));
  }
}
