/**
 * The scene store of the page editor: the ordered list of placed elements
 * (back to front), the default geometry of a new element, the partial
 * updates applied to one element, deletion, visibility, layer reordering,
 * selection flags, and the keyboard shortcut decision.
 *
 * Every operation here is a value-to-value function, as in the source,
 * where each is an expression handed to a React state setter.  The
 * history commit that follows most of them lives in module App.
 */
module Scene {
  import opened Common

  /** The fixed A4 page, in CSS pixels. */
  const PageWidth: real := 794.0
  const PageHeight: real := 1123.0

  /** Side of the square box a non-background element starts with. */
  const DefaultBoxSize: real := 80.0

  const AssetBase: string := "https://cdn.jsdelivr.net/gh/Ninja4554/Cubist-images/"

  /**
   * One placed item.  `kind` is the source's free-form `type` string
   * ("head", "eyes", ..., "uploaded", "signature"); `src` is an image URL
   * or, for a signature, its text.  `visible` is optional in the source
   * (`visible?: boolean`): None stands for a missing field.
   */
  datatype Element = Element(
    id: string,
    kind: string,
    index: int,
    x: real,
    y: real,
    width: real,
    height: real,
    rotation: real,
    src: string,
    selected: bool,
    visible: Option<bool>)

  /** `Partial<CanvasElement>`: a field given as Some replaces the element's field. */
  datatype Patch = Patch(
    id: Option<string>,
    kind: Option<string>,
    index: Option<int>,
    x: Option<real>,
    y: Option<real>,
    width: Option<real>,
    height: Option<real>,
    rotation: Option<real>,
    src: Option<string>,
    selected: Option<bool>,
    visible: Option<bool>)

  const NoChange: Patch := Patch(None, None, None, None, None, None, None, None, None, None, None)

  /** `{ ...el, ...updates }` */
  function Merge(e: Element, p: Patch): (r: Element)
  {
    Element(
      Pick(p.id, e.id), Pick(p.kind, e.kind), Pick(p.index, e.index),
      Pick(p.x, e.x), Pick(p.y, e.y), Pick(p.width, e.width), Pick(p.height, e.height),
      Pick(p.rotation, e.rotation), Pick(p.src, e.src), Pick(p.selected, e.selected),
      if p.visible.Some? then p.visible else e.visible)
  }

  /** Merging the same patch twice is merging it once; the empty patch changes nothing. */
  lemma MergeLaws(e: Element, p: Patch)
    ensures Merge(Merge(e, p), p) == Merge(e, p)
    ensures Merge(e, NoChange) == e
  {
  }

  /** An element is drawn, exported and shown with an open eye unless `visible === false`. */
  predicate IsShown(e: Element)
  {
    e.visible != Some(false)
  }

  /** The known asset categories and the file-name prefix each one uses. */
  const PrefixTable: map<string, string> :=
    map["head" := "headShapes", "eyes" := "Eyes", "ears" := "Ears",
        "noses" := "noses", "mouths" := "mouths", "misc" := "misc"]

  /**
   * `getTypePrefix`: the category is recognised case-insensitively; an
   * unknown kind is returned as it was given (not lower-cased).
   */
  function TypePrefix(kind: string): (r: string)
    ensures ToLower(kind) in PrefixTable ==> r == PrefixTable[ToLower(kind)]
    ensures ToLower(kind) !in PrefixTable ==> r == kind
  {
    match ToLower(kind)
    case "head" => "headShapes"
    case "eyes" => "Eyes"
    case "ears" => "Ears"
    case "noses" => "noses"
    case "mouths" => "mouths"
    case "misc" => "misc"
    case _ => kind
  }

  /**
   * Lower-casing a recognised kind first does not change its prefix, and an
   * unrecognised kind never maps to a table prefix by being lower-cased.
   */
  lemma TypePrefixIgnoresCase(kind: string)
    ensures ToLower(kind) in PrefixTable ==> TypePrefix(ToLower(kind)) == TypePrefix(kind)
    ensures ToLower(kind) !in PrefixTable ==> TypePrefix(ToLower(kind)) == ToLower(kind)
  {
    ToLowerIdempotent(kind);
  }

  /** The CDN location of asset number `index` of a category with the given prefix. */
  function AssetSrc(prefix: string, index: int): string
  {
    AssetBase + prefix + IntToString(index) + ".png"
  }

  /**
   * `addElement`: appends one new element.  The background kind "head"
   * (compared case-sensitively) covers the whole page; every other kind
   * gets an 80x80 box centred on the page.  The new element is neither
   * selected nor rotated, is visible, and nothing already placed changes.
   */
  function AddElement(elements: seq<Element>, kind: string, index: int, id: string): (r: seq<Element>)
    ensures |r| == |elements| + 1 && r[..|elements|] == elements
    ensures var e := r[|elements|];
      && e.id == id && e.kind == kind && e.index == index
      && e.rotation == 0.0 && e.visible == Some(true) && !e.selected
      && e.src == AssetSrc(TypePrefix(kind), index)
    ensures kind == "head" ==>
      var e := r[|elements|];
      e.x == 0.0 && e.y == 0.0 && e.width == PageWidth && e.height == PageHeight
    ensures kind != "head" ==>
      var e := r[|elements|];
      && e.width == DefaultBoxSize && e.height == DefaultBoxSize
      && e.x + e.width / 2.0 == PageWidth / 2.0
      && e.y + e.height / 2.0 == PageHeight / 2.0
  {
    var head := kind == "head";
    var e := Element(
      id, kind, index,
      if head then 0.0 else PageWidth / 2.0 - 40.0,
      if head then 0.0 else PageHeight / 2.0 - 40.0,
      if head then PageWidth else 80.0,
      if head then PageHeight else 80.0,
      0.0,
      AssetSrc(TypePrefix(kind), index),
      false,
      Some(true));
    elements + [e]
  }

  /** A new element lies entirely on the page, whatever its kind. */
  lemma AddedElementOnPage(elements: seq<Element>, kind: string, index: int, id: string)
    ensures var e := AddElement(elements, kind, index, id)[|elements|];
      0.0 <= e.x && e.x + e.width <= PageWidth && 0.0 <= e.y && e.y + e.height <= PageHeight
  {
  }

  /**
   * `updateElement`: every element carrying `id` takes the given fields,
   * every other element is untouched, and the order does not change.
   */
  function UpdateElement(elements: seq<Element>, id: string, p: Patch): (r: seq<Element>)
    ensures |r| == |elements|
    ensures forall i :: 0 <= i < |elements| && elements[i].id != id ==> r[i] == elements[i]
    ensures forall i :: 0 <= i < |elements| && elements[i].id == id ==> r[i] == Merge(elements[i], p)
    ensures p.id.None? ==> forall i :: 0 <= i < |elements| ==> r[i].id == elements[i].id
  {
    Map(elements, (e: Element) => if e.id == id then Merge(e, p) else e)
  }

  /** The filter test of `deleteElement`: keep elements not carrying `id`. */
  function OtherThan(id: string): Element -> bool
  {
    (e: Element) => e.id != id
  }

  /** The filter test of `deleteSelected`: keep elements whose id is not listed. */
  function NotIn(ids: seq<string>): Element -> bool
  {
    (e: Element) => e.id !in ids
  }

  /** `deleteElement` on the list: every element with `id` goes, every other stays. */
  function DeleteElement(elements: seq<Element>, id: string): (r: seq<Element>)
    ensures |r| <= |elements|
    ensures forall e :: e in r <==> e in elements && e.id != id
  {
    Filter(elements, OtherThan(id))
  }

  /** `deleteElement` on the selection list. */
  function Deselect(selected: seq<string>, id: string): (r: seq<string>)
    ensures forall s :: s in r <==> s in selected && s != id
  {
    Filter(selected, (s: string) => s != id)
  }

  /** Deleting an id that is already gone changes neither list. */
  lemma DeleteElementIdempotent(elements: seq<Element>, selected: seq<string>, id: string)
    ensures DeleteElement(DeleteElement(elements, id), id) == DeleteElement(elements, id)
    ensures Deselect(Deselect(selected, id), id) == Deselect(selected, id)
  {
    FilterKeepsAll(DeleteElement(elements, id), OtherThan(id));
    FilterKeepsAll(Deselect(selected, id), (s: string) => s != id);
  }

  /** Deleting an element preserves the back-to-front order of the others. */
  lemma DeleteElementKeepsOrder(front: seq<Element>, back: seq<Element>, id: string)
    ensures DeleteElement(front + back, id) == DeleteElement(front, id) + DeleteElement(back, id)
  {
    FilterConcat(front, back, OtherThan(id));
  }

  /** `deleteSelected` on the list: exactly the elements whose id is selected go. */
  function DeleteSelected(elements: seq<Element>, selected: seq<string>): (r: seq<Element>)
    ensures |r| <= |elements|
    ensures forall e :: e in r <==> e in elements && e.id !in selected
  {
    Filter(elements, NotIn(selected))
  }

  /** A second `deleteSelected` with the selection it leaves behind (none) removes nothing. */
  lemma DeleteSelectedThenNothing(elements: seq<Element>, selected: seq<string>)
    ensures DeleteSelected(DeleteSelected(elements, selected), []) == DeleteSelected(elements, selected)
  {
    FilterKeepsAll(DeleteSelected(elements, selected), NotIn([]));
  }

  /** `!el.visible`: a missing flag reads as false, so it becomes true. */
  function Toggled(visible: Option<bool>): (r: Option<bool>)
  {
    Some(visible != Some(true))
  }

  /** `toggleElementVisibility`: only the visibility of elements carrying `id` changes. */
  function ToggleVisibility(elements: seq<Element>, id: string): (r: seq<Element>)
    ensures |r| == |elements|
    ensures forall i :: 0 <= i < |elements| ==>
      r[i] == if elements[i].id == id then elements[i].(visible := Toggled(elements[i].visible)) else elements[i]
  {
    Map(elements, (e: Element) => if e.id == id then e.(visible := Toggled(e.visible)) else e)
  }

  /**
   * Toggling flips whether an element is shown exactly when its flag is
   * present; an element without the flag is shown both before and after
   * its first toggle.  Toggling a present flag twice restores the element.
   */
  lemma ToggleVisibilityFlips(elements: seq<Element>, id: string, i: nat)
    requires i < |elements| && elements[i].id == id
    ensures IsShown(ToggleVisibility(elements, id)[i]) != IsShown(elements[i]) <==> elements[i].visible.Some?
    ensures elements[i].visible.Some? ==>
      ToggleVisibility(ToggleVisibility(elements, id), id)[i] == elements[i]
  {
    var once := ToggleVisibility(elements, id);
    assert once[i] == elements[i].(visible := Toggled(elements[i].visible));
    match elements[i].visible
    case None =>
    case Some(b) => assert Toggled(Some(b)) == Some(!b);
  }

  /** `findIndex`: the first position holding `id`, or -1. */
  function FindIndex(elements: seq<Element>, id: string): (r: int)
    ensures -1 <= r < |elements|
    ensures r == -1 <==> forall e :: e in elements ==> e.id != id
    ensures r >= 0 ==> elements[r].id == id && forall k :: 0 <= k < r ==> elements[k].id != id
  {
    if elements == [] then -1
    else if elements[0].id == id then 0
    else
      var k := FindIndex(elements[1..], id);
      if k == -1 then -1 else k + 1
  }

  /** Layer directions: "up" is towards the front (the end of the list). */
  datatype Direction = Up | Down

  /**
   * The list `moveLayer` leaves behind: the first element carrying `id`
   * trades places with its neighbour in the given direction; nothing
   * happens when the id is absent or the neighbour would be off the list.
   */
  function Reordered(elements: seq<Element>, id: string, direction: Direction): (r: seq<Element>)
    ensures |r| == |elements| && multiset(r) == multiset(elements)
    ensures FindIndex(elements, id) == -1 ==> r == elements
    ensures var i := FindIndex(elements, id);
      var t := if direction == Up then i + 1 else i - 1;
      i >= 0 && !(0 <= t < |elements|) ==> r == elements
    ensures var i := FindIndex(elements, id);
      var t := if direction == Up then i + 1 else i - 1;
      i >= 0 && 0 <= t < |elements| ==>
        && r[i] == elements[t] && r[t] == elements[i]
        && forall k :: 0 <= k < |elements| && k != i && k != t ==> r[k] == elements[k]
  {
    var i := FindIndex(elements, id);
    var t := if direction == Up then i + 1 else i - 1;
    if i == -1 || !(0 <= t < |elements|) then elements
    else SwapPreservesMultiset(elements, i, t); elements[i := elements[t]][t := elements[i]]
  }

  lemma SwapPreservesMultiset(s: seq<Element>, i: nat, j: nat)
    requires i < |s| && j < |s|
    ensures multiset(s[i := s[j]][j := s[i]]) == multiset(s)
  {
    var r := s[i := s[j]];
    assert multiset(r) == multiset(s) - multiset{s[i]} + multiset{s[j]};
    assert multiset(r[j := s[i]]) == multiset(r) - multiset{r[j]} + multiset{s[i]};
  }

  /** `moveLayer`: copies the list into a fresh array and swaps two of its cells. */
  method MoveLayer(elements: seq<Element>, id: string, direction: Direction) returns (r: seq<Element>)
    ensures r == Reordered(elements, id, direction)
  {
    var current := FindIndex(elements, id);
    if current == -1 {
      return elements;
    }
    var copy := new Element[|elements|](k requires 0 <= k < |elements| => elements[k]);
    var target := if direction == Up then current + 1 else current - 1;
    if 0 <= target < copy.Length {
      copy[current], copy[target] := copy[target], copy[current];
    }
    r := copy[..];
  }

  /** `selectElement`: exactly the elements carrying `id` are flagged; nothing else changes. */
  function SelectElement(elements: seq<Element>, id: string): (r: seq<Element>)
    ensures |r| == |elements|
    ensures forall i :: 0 <= i < |elements| ==> r[i] == elements[i].(selected := elements[i].id == id)
  {
    Map(elements, (e: Element) => e.(selected := e.id == id))
  }

  /** `clearSelection`: no element stays flagged; nothing else changes. */
  function ClearSelection(elements: seq<Element>): (r: seq<Element>)
    ensures |r| == |elements|
    ensures forall i :: 0 <= i < |elements| ==> r[i] == elements[i].(selected := false)
  {
    Map(elements, (e: Element) => e.(selected := false))
  }

  /** What a key press asks the editor to do. */
  datatype KeyCommand = UndoKey | RedoKey | DeleteKey | NoCommand

  /**
   * The document-level keydown handler.  `ctrlOrMeta` is Ctrl or Cmd held,
   * `typing` is focus in a text field, `hasSelection` a non-empty selection.
   */
  function KeyAction(ctrlOrMeta: bool, shift: bool, key: string, typing: bool, hasSelection: bool): (r: KeyCommand)
    ensures r == UndoKey <==> ctrlOrMeta && !typing && key == "z" && !shift
    ensures r == RedoKey <==> ctrlOrMeta && !typing && (key == "y" || (key == "z" && shift))
    ensures r == DeleteKey <==> !typing && hasSelection && (key == "Delete" || key == "Backspace")
    ensures typing ==> r == NoCommand
  {
    if ctrlOrMeta && !typing && key == "z" && !shift then UndoKey
    else if ctrlOrMeta && !typing && (key == "y" || (key == "z" && shift)) then RedoKey
    else if (key == "Delete" || key == "Backspace") && hasSelection then
      (if typing then NoCommand else DeleteKey)
    else NoCommand
  }
}
