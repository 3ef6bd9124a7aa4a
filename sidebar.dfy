/**
 * The sidebar's state logic: which asset categories are unfolded, and the
 * drawing-tool switches and buttons it offers (draw switch, free-draw
 * switch, eraser, line tool, colour palette, brush slider).
 */
module Sidebar {
  import opened Common
  import opened DrawingConfig

  /** Only the "head" category is unfolded when the sidebar first appears. */
  const InitialOpenCategories: seq<string> := ["head"]

  /** `toggleCategory`: fold an unfolded category, unfold a folded one (at the end). */
  function ToggleCategory(open: seq<string>, kind: string): (r: seq<string>)
    ensures kind in r <==> kind !in open
    ensures forall t :: t != kind ==> (t in r <==> t in open)
    ensures kind !in open ==> r == open + [kind]
  {
    if kind in open then Filter(open, (t: string) => t != kind) else open + [kind]
  }

  /** Unfolding a folded category and folding it again gives back the very same list. */
  lemma {:induction false} ToggleCategoryTwice(open: seq<string>, kind: string)
    requires kind !in open
    ensures ToggleCategory(ToggleCategory(open, kind), kind) == open
  {
    var keep := (t: string) => t != kind;
    assert ToggleCategory(open + [kind], kind) == Filter(open + [kind], keep);
    FilterConcat(open, [kind], keep);
    FilterKeepsAll(open, keep);
    assert Filter([kind], keep) == [];
  }

  /** Membership of every category is restored by toggling twice, from any list. */
  lemma ToggleCategoryInvolution(open: seq<string>, kind: string, t: string)
    ensures t in ToggleCategory(ToggleCategory(open, kind), kind) <==> t in open
  {
  }

  /** The controls of the sidebar's drawing card. */
  datatype SidebarAction =
    | DrawSwitch(checked: bool)
    | FreeDrawSwitch(checked: bool)
    | EraseButton
    | LineButton
    | PaletteColor(color: string)
    | BrushSlider(size: SliderValue)

  /** The patch each control hands to `updateDrawingState`. */
  function SidebarPatch(ds: DrawingState, a: SidebarAction): DrawingPatch
  {
    match a
    case DrawSwitch(c) => NoToolChange.(isDrawing := Some(c), isFreeDrawing := Some(c))
    case FreeDrawSwitch(c) => NoToolChange.(isFreeDrawing := Some(c), isErasing := Some(false), isLineMode := Some(false))
    case EraseButton => NoToolChange.(isErasing := Some(!ds.isErasing), isLineMode := Some(false))
    case LineButton => NoToolChange.(isLineMode := Some(!ds.isLineMode), isErasing := Some(false))
    case PaletteColor(c) => NoToolChange.(color := Some(c))
    case BrushSlider(v) => NoToolChange.(brushSize := Some(v as int))
  }

  /** The drawing state after one sidebar control is used. */
  function ApplySidebar(ds: DrawingState, a: SidebarAction): (r: DrawingState)
    ensures a.DrawSwitch? ==>
      r.isDrawing == a.checked && r.isFreeDrawing == a.checked
      && r == ds.(isDrawing := a.checked, isFreeDrawing := a.checked)
    ensures a.FreeDrawSwitch? ==>
      r.isFreeDrawing == a.checked && !r.isErasing && !r.isLineMode
      && r.isDrawing == ds.isDrawing && r.brushSize == ds.brushSize && r.color == ds.color
    ensures a.EraseButton? ==>
      r.isErasing == !ds.isErasing && !r.isLineMode
      && r == ds.(isErasing := r.isErasing, isLineMode := false)
    ensures a.LineButton? ==>
      r.isLineMode == !ds.isLineMode && !r.isErasing
      && r == ds.(isLineMode := r.isLineMode, isErasing := false)
    ensures a.PaletteColor? ==> r == ds.(color := a.color)
    ensures a.BrushSlider? ==> r == ds.(brushSize := a.size as int)
  {
    UpdateDrawingState(ds, SidebarPatch(ds, a))
  }

  /** No sidebar control turns the eraser and the line tool on together or leaves the slider's range. */
  lemma SidebarKeepsToolsConsistent(ds: DrawingState, a: SidebarAction)
    requires ToolsConsistent(ds)
    ensures ToolsConsistent(ApplySidebar(ds, a))
  {
  }

  /** The drawing state after a session of sidebar controls, used in order. */
  function ApplySidebarAll(ds: DrawingState, actions: seq<SidebarAction>): DrawingState
    decreases |actions|
  {
    if actions == [] then ds else ApplySidebarAll(ApplySidebar(ds, actions[0]), actions[1..])
  }

  /** From the initial state on, every session of sidebar controls keeps the tools consistent. */
  lemma {:induction false} SidebarSessionConsistent(ds: DrawingState, actions: seq<SidebarAction>)
    decreases |actions|
    requires ToolsConsistent(ds)
    ensures ToolsConsistent(ApplySidebarAll(ds, actions))
  {
    if actions != [] {
      SidebarKeepsToolsConsistent(ds, actions[0]);
      SidebarSessionConsistent(ApplySidebar(ds, actions[0]), actions[1..]);
    }
  }
}
