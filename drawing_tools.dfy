/**
 * The bottom toolbar: its draw, eraser and line buttons, colour and brush
 * settings, the status label, and when its delete button is enabled.
 */
module DrawingTools {
  import opened Common
  import opened DrawingConfig
  import Scene

  /** The controls of the bottom toolbar that change the drawing state. */
  datatype ToolbarAction =
    | DrawButton
    | EraseButton
    | LineButton
    | PickColor(color: string)
    | BrushSlider(size: SliderValue)

  /** The patch each control hands to `updateDrawingState`. */
  function ToolbarPatch(ds: DrawingState, a: ToolbarAction): DrawingPatch
  {
    match a
    case DrawButton => NoToolChange.(isDrawing := Some(!ds.isDrawing))
    case EraseButton => NoToolChange.(isErasing := Some(!ds.isErasing), isLineMode := Some(false))
    case LineButton => NoToolChange.(isLineMode := Some(!ds.isLineMode), isErasing := Some(false))
    case PickColor(c) => NoToolChange.(color := Some(c))
    case BrushSlider(v) => NoToolChange.(brushSize := Some(v as int))
  }

  /**
   * The drawing state after one toolbar control is used.  Unlike the
   * sidebar's draw switch, the toolbar's draw button leaves the free-draw
   * flag alone.
   */
  function ApplyToolbar(ds: DrawingState, a: ToolbarAction): (r: DrawingState)
    ensures a.DrawButton? ==> r == ds.(isDrawing := !ds.isDrawing)
    ensures a.EraseButton? ==>
      r.isErasing == !ds.isErasing && !r.isLineMode
      && r == ds.(isErasing := r.isErasing, isLineMode := false)
    ensures a.LineButton? ==>
      r.isLineMode == !ds.isLineMode && !r.isErasing
      && r == ds.(isLineMode := r.isLineMode, isErasing := false)
    ensures a.PickColor? ==> r == ds.(color := a.color)
    ensures a.BrushSlider? ==> r == ds.(brushSize := a.size as int)
  {
    UpdateDrawingState(ds, ToolbarPatch(ds, a))
  }

  /** No toolbar control turns the eraser and the line tool on together or leaves the slider's range. */
  lemma ToolbarKeepsToolsConsistent(ds: DrawingState, a: ToolbarAction)
    requires ToolsConsistent(ds)
    ensures ToolsConsistent(ApplyToolbar(ds, a))
  {
  }

  /** The drawing state after a session of toolbar controls, used in order. */
  function ApplyToolbarAll(ds: DrawingState, actions: seq<ToolbarAction>): DrawingState
    decreases |actions|
  {
    if actions == [] then ds else ApplyToolbarAll(ApplyToolbar(ds, actions[0]), actions[1..])
  }

  /** From a consistent state, every session of toolbar controls keeps the tools consistent. */
  lemma {:induction false} ToolbarSessionConsistent(ds: DrawingState, actions: seq<ToolbarAction>)
    decreases |actions|
    requires ToolsConsistent(ds)
    ensures ToolsConsistent(ApplyToolbarAll(ds, actions))
  {
    if actions != [] {
      ToolbarKeepsToolsConsistent(ds, actions[0]);
      ToolbarSessionConsistent(ApplyToolbar(ds, actions[0]), actions[1..]);
    }
  }

  /**
   * The status chip: shown only while drawing is on; it names the eraser
   * first, then the line tool, then plain drawing, prefixed with "Free "
   * in free-draw mode.
   */
  function StatusLabel(ds: DrawingState): (r: Option<string>)
    ensures r.Some? <==> ds.isDrawing
    ensures ds.isDrawing ==>
      var prefix := if ds.isFreeDrawing then "Free " else "";
      && (ds.isErasing ==> r.value == prefix + "Erasing")
      && (!ds.isErasing && ds.isLineMode ==> r.value == prefix + "Line Mode")
      && (!ds.isErasing && !ds.isLineMode ==> r.value == prefix + "Drawing")
  {
    if !ds.isDrawing then None
    else if ds.isFreeDrawing then
      Some(if ds.isErasing then "Free Erasing" else if ds.isLineMode then "Free Line Mode" else "Free Drawing")
    else
      Some(if ds.isErasing then "Erasing" else if ds.isLineMode then "Line Mode" else "Drawing")
  }

  /** The delete button is enabled exactly when something is selected. */
  function DeleteEnabled(selected: seq<string>): bool
  {
    |selected| > 0
  }

  /** When the delete button is disabled, deleting the selection would remove nothing. */
  lemma DisabledDeleteRemovesNothing(elements: seq<Scene.Element>, selected: seq<string>)
    requires !DeleteEnabled(selected)
    ensures Scene.DeleteSelected(elements, selected) == elements
  {
    FilterKeepsAll(elements, Scene.NotIn(selected));
  }
}
