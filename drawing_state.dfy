/**
 * The drawing tool configuration shared by the sidebar, the bottom
 * toolbar and the drawing surface, and the record merge both toolbars use
 * to change it.
 */
module DrawingConfig {
  import opened Common

  /** Tool configuration, not per stroke.  `color` is a CSS colour name. */
  datatype DrawingState = DrawingState(
    isDrawing: bool,
    isFreeDrawing: bool,
    isErasing: bool,
    isLineMode: bool,
    brushSize: int,
    color: string)

  /** The editor starts with drawing off, a 5 px brush and black ink. */
  const InitialDrawingState: DrawingState := DrawingState(false, false, false, false, 5, "black")

  /** `Partial<DrawingState>` */
  datatype DrawingPatch = DrawingPatch(
    isDrawing: Option<bool>,
    isFreeDrawing: Option<bool>,
    isErasing: Option<bool>,
    isLineMode: Option<bool>,
    brushSize: Option<int>,
    color: Option<string>)

  const NoToolChange: DrawingPatch := DrawingPatch(None, None, None, None, None, None)

  /** The values the brush-size slider can produce: whole pixels from 1 to 20. */
  type SliderValue = v: int | 1 <= v <= 20 witness 1

  /** `updateDrawingState`: `{ ...drawingState, ...updates }`. */
  function UpdateDrawingState(ds: DrawingState, p: DrawingPatch): (r: DrawingState)
    ensures p.isDrawing.Some? ==> r.isDrawing == p.isDrawing.value
    ensures p.isDrawing.None? ==> r.isDrawing == ds.isDrawing
    ensures p.isFreeDrawing.Some? ==> r.isFreeDrawing == p.isFreeDrawing.value
    ensures p.isFreeDrawing.None? ==> r.isFreeDrawing == ds.isFreeDrawing
    ensures p.isErasing.Some? ==> r.isErasing == p.isErasing.value
    ensures p.isErasing.None? ==> r.isErasing == ds.isErasing
    ensures p.isLineMode.Some? ==> r.isLineMode == p.isLineMode.value
    ensures p.isLineMode.None? ==> r.isLineMode == ds.isLineMode
    ensures p.brushSize.Some? ==> r.brushSize == p.brushSize.value
    ensures p.brushSize.None? ==> r.brushSize == ds.brushSize
    ensures p.color.Some? ==> r.color == p.color.value
    ensures p.color.None? ==> r.color == ds.color
  {
    DrawingState(
      Pick(p.isDrawing, ds.isDrawing), Pick(p.isFreeDrawing, ds.isFreeDrawing),
      Pick(p.isErasing, ds.isErasing), Pick(p.isLineMode, ds.isLineMode),
      Pick(p.brushSize, ds.brushSize), Pick(p.color, ds.color))
  }

  /**
   * What the toolbars maintain: the eraser and the line tool are never on
   * together, and the brush size is one the slider offers.
   */
  predicate ToolsConsistent(ds: DrawingState)
  {
    !(ds.isErasing && ds.isLineMode) && 1 <= ds.brushSize <= 20
  }

  lemma InitialToolsConsistent()
    ensures ToolsConsistent(InitialDrawingState)
  {
  }
}
