/**
 * The layers panel: the scene listed front to back, each row's name, icon,
 * eye state and highlight, and which reorder buttons are disabled.
 */
module Layers {
  import opened Common
  import opened Scene

  /** `[...elements].reverse()`: the frontmost element is listed first. */
  function Listing(elements: seq<Element>): (r: seq<Element>)
    ensures |r| == |elements|
    ensures forall k {:trigger r[k]} :: 0 <= k < |elements| ==> r[k] == elements[|elements| - 1 - k]
  {
    seq(|elements|, k requires 0 <= k < |elements| => elements[|elements| - 1 - k])
  }

  /**
   * The element `addElement` appends (the new frontmost) heads the listing,
   * above the previous listing; listing twice gives back the scene order.
   */
  lemma ListingFrontFirst(elements: seq<Element>, e: Element)
    ensures Listing(elements + [e]) == [e] + Listing(elements)
    ensures Listing(Listing(elements)) == elements
  {
  }

  /** The "move up" button of the row at listed position `row`. */
  predicate UpDisabled(row: nat)
  {
    row == 0
  }

  /** The "move down" button of the row at listed position `row` among `count` rows. */
  predicate DownDisabled(row: nat, count: nat)
  {
    row == count - 1
  }

  /** Element ids are distinct (each is minted from the creation time). */
  predicate UniqueIds(elements: seq<Element>)
  {
    forall i, j :: 0 <= i < j < |elements| ==> elements[i].id != elements[j].id
  }

  /** With distinct ids, looking up the id at position `i` finds position `i`. */
  lemma FindOwnIndex(elements: seq<Element>, i: nat)
    requires UniqueIds(elements) && i < |elements|
    ensures FindIndex(elements, elements[i].id) == i
  {
    assert elements[i] in elements;
  }

  /**
   * "Up" is disabled on a row exactly when moving that row's element up
   * would leave the scene as it is: the disabled buttons are the
   * boundary no-ops of `moveLayer`, and every enabled one changes the order.
   */
  lemma UpDisabledExactlyAtFront(elements: seq<Element>, row: nat)
    requires UniqueIds(elements) && row < |elements|
    ensures UpDisabled(row) <==> Reordered(elements, Listing(elements)[row].id, Up) == elements
  {
    var n := |elements|;
    var i := n - 1 - row;
    var id := Listing(elements)[row].id;
    assert id == elements[i].id;
    FindOwnIndex(elements, i);
    var r := Reordered(elements, id, Up);
    if row == 0 {
      assert r == elements;
    } else {
      assert r[i] == elements[i + 1];
      assert elements[i + 1].id != elements[i].id;
    }
  }

  /** "Down" is disabled on a row exactly when moving that row's element down would change nothing. */
  lemma DownDisabledExactlyAtBack(elements: seq<Element>, row: nat)
    requires UniqueIds(elements) && row < |elements|
    ensures DownDisabled(row, |elements|) <==> Reordered(elements, Listing(elements)[row].id, Down) == elements
  {
    var n := |elements|;
    var i := n - 1 - row;
    var id := Listing(elements)[row].id;
    assert id == elements[i].id;
    FindOwnIndex(elements, i);
    var r := Reordered(elements, id, Down);
    if row == n - 1 {
      assert r == elements;
    } else {
      assert r[i] == elements[i - 1];
      assert elements[i - 1].id != elements[i].id;
    }
  }

  /** `charAt(0).toUpperCase() + slice(1)` */
  function Capitalize(s: string): (r: string)
    ensures |r| == |s|
    ensures s != [] ==> r[0] == UpperChar(s[0]) && r[1..] == s[1..]
  {
    if s == [] then [] else [UpperChar(s[0])] + s[1..]
  }

  /** `substring(0, n)`: at most the first `n` characters. */
  function Prefix(s: string, n: nat): (r: string)
    ensures |r| == if |s| < n then |s| else n
    ensures r <= s
  {
    if |s| < n then s else s[..n]
  }

  /**
   * `getLayerName`: a signature shows at most its first 15 characters
   * followed by "..."; an uploaded image has a fixed name; any other
   * element shows its capitalised kind and its asset number.
   */
  function LayerName(e: Element): (r: string)
    ensures e.kind == "signature" ==>
      && 14 <= |r| <= 29 && r[..11] == "Signature: " && r[|r| - 3..] == "..."
      && r[11..|r| - 3] <= e.src && |r[11..|r| - 3]| == (if |e.src| < 15 then |e.src| else 15)
    ensures e.kind == "uploaded" ==> r == "Uploaded Image"
    ensures e.kind != "signature" && e.kind != "uploaded" ==>
      && |r| == |e.kind| + 1 + |IntToString(e.index)|
      && r[..|e.kind|] == Capitalize(e.kind)
      && r[|e.kind|] == ' '
      && r[|e.kind| + 1..] == IntToString(e.index)
  {
    if e.kind == "signature" then
      var shown := Prefix(e.src, 15);
      var r := "Signature: " + shown + "...";
      assert r[11..|r| - 3] == shown;
      r
    else if e.kind == "uploaded" then "Uploaded Image"
    else
      var r := Capitalize(e.kind) + " " + IntToString(e.index);
      assert r[..|e.kind|] == Capitalize(e.kind);
      r
  }

  /** Row icons. */
  datatype Icon = Person | Eye | Ear | Nose | Mouth | Palette | Writing | Camera | Masks

  const IconKinds: set<string> := {"head", "eyes", "ears", "noses", "mouths", "misc", "signature", "uploaded"}

  /** `getLayerIcon`: one icon per known kind, the masks for any other kind. */
  function LayerIcon(e: Element): (r: Icon)
    ensures r == Masks <==> e.kind !in IconKinds
    ensures e.kind == "signature" <==> r == Writing
    ensures e.kind == "uploaded" <==> r == Camera
  {
    match e.kind
    case "head" => Person
    case "eyes" => Eye
    case "ears" => Ear
    case "noses" => Nose
    case "mouths" => Mouth
    case "misc" => Palette
    case "signature" => Writing
    case "uploaded" => Camera
    case _ => Masks
  }

  /** A row is highlighted exactly when its element's id is selected. */
  predicate Highlighted(e: Element, selected: seq<string>)
  {
    e.id in selected
  }

  /** After `selectElement(id)`, exactly the rows of elements carrying `id` are highlighted. */
  lemma SelectHighlightsOnlyTarget(elements: seq<Element>, id: string, row: nat)
    requires row < |elements|
    ensures Highlighted(Listing(SelectElement(elements, id))[row], [id])
      <==> Listing(elements)[row].id == id
    ensures Listing(SelectElement(elements, id))[row].selected <==> Listing(elements)[row].id == id
  {
    var n := |elements|;
    var selected := SelectElement(elements, id);
    assert Listing(selected)[row] == selected[n - 1 - row];
    assert Listing(elements)[row] == elements[n - 1 - row];
    assert selected[n - 1 - row].id == elements[n - 1 - row].id;
  }
}
