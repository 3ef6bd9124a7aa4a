/**
 * The editor's top level: the snapshot history with its cursor (commit,
 * undo, redo, and the 50-entry cap), and the editor object that owns the
 * element list, the selection, the tool configuration and the history, and
 * routes every scene operation, drawing gesture and key press to them.
 */
module App {
  import opened Common
  import opened Scene
  import opened DrawingConfig
  import Canvas
  import Transform
  import Sidebar
  import DrawingTools

  /** What one history entry records: the element list and the drawing raster. */
  datatype Snapshot = Snapshot(elements: seq<Element>, drawingData: Option<seq<Canvas.Segment>>)

  /** The most entries the history keeps. */
  const MaxHistory: nat := 50

  /** The history list and the position of the current entry in it (-1 before the first commit). */
  datatype Timeline = Timeline(entries: seq<Snapshot>, cursor: int)

  /** The cursor points into the list unless the list is empty, and the cap holds. */
  predicate WellFormed(t: Timeline)
  {
    && |t.entries| <= MaxHistory
    && -1 <= t.cursor < |t.entries|
    && (t.entries != [] ==> 0 <= t.cursor)
  }

  /** The editor starts with no history. */
  const EmptyTimeline: Timeline := Timeline([], -1)

  /** The entries up to and including the current one: what undo can reach. */
  function Past(t: Timeline): (r: seq<Snapshot>)
    requires WellFormed(t)
    ensures |r| == t.cursor + 1
  {
    t.entries[..t.cursor + 1]
  }

  /** The last `n` elements of `s` (all of them when there are fewer). */
  function Last<T>(s: seq<T>, n: nat): (r: seq<T>)
    ensures |r| == if |s| <= n then |s| else n
  {
    if |s| <= n then s else s[|s| - n..]
  }

  /** Keeping the last `n` twice, with more appended in between, is keeping the last `n` once. */
  lemma LastOfLast<T>(a: seq<T>, b: seq<T>, n: nat)
    ensures Last(Last(a, n) + b, n) == Last(a + b, n)
  {
    var l := Last(a, n);
    assert l + b == (a + b)[|a| - |l|..];
  }

  /**
   * `saveState`: the redo tail after the cursor is discarded, the snapshot
   * is appended, the oldest entry is evicted once there would be 51, and
   * the cursor moves to the new snapshot.
   */
  function Commit(t: Timeline, s: Snapshot): (r: Timeline)
    requires WellFormed(t)
    ensures WellFormed(r)
    ensures |r.entries| >= 1 && r.cursor == |r.entries| - 1 && r.entries[r.cursor] == s
    ensures r.entries == Last(Past(t) + [s], MaxHistory)
    ensures |Past(t)| < MaxHistory ==> r.entries == Past(t) + [s]
    ensures |Past(t)| == MaxHistory ==> r.entries == Past(t)[1..] + [s]
  {
    var grown := t.entries[..t.cursor + 1] + [s];
    if |grown| > MaxHistory then Timeline(grown[1..], |grown| - 2) else Timeline(grown, |grown| - 1)
  }

  /** The undo button is enabled when there is an entry before the current one. */
  predicate CanUndo(t: Timeline)
  {
    t.cursor > 0
  }

  /** The redo button is enabled when there is an entry after the current one. */
  predicate CanRedo(t: Timeline)
  {
    t.cursor < |t.entries| - 1
  }

  /** `undo` on the history: one entry back, or nothing at the first entry. */
  function Undone(t: Timeline): (r: Timeline)
    requires WellFormed(t)
    ensures WellFormed(r) && r.entries == t.entries
    ensures r == t <==> !CanUndo(t)
    ensures CanUndo(t) ==> r.cursor == t.cursor - 1
  {
    if t.cursor > 0 then t.(cursor := t.cursor - 1) else t
  }

  /** `redo` on the history: one entry forward, or nothing at the last entry. */
  function Redone(t: Timeline): (r: Timeline)
    requires WellFormed(t)
    ensures WellFormed(r) && r.entries == t.entries
    ensures r == t <==> !CanRedo(t)
    ensures CanRedo(t) ==> r.cursor == t.cursor + 1
  {
    if t.cursor < |t.entries| - 1 then t.(cursor := t.cursor + 1) else t
  }

  /** After a commit there is nothing to redo, and something to undo unless the list held nothing to keep. */
  lemma CommitDiscardsRedo(t: Timeline, s: Snapshot)
    requires WellFormed(t)
    ensures !CanRedo(Commit(t, s)) && Redone(Commit(t, s)) == Commit(t, s)
    ensures CanUndo(Commit(t, s)) <==> t.cursor >= 0
  {
  }

  /** Undo right after a commit goes back to the entry that was current before it. */
  lemma UndoAfterCommitReturns(t: Timeline, s: Snapshot)
    requires WellFormed(t) && t.entries != []
    ensures CanUndo(Commit(t, s))
    ensures Undone(Commit(t, s)).entries[Undone(Commit(t, s)).cursor] == t.entries[t.cursor]
  {
    var p := Past(t);
    var all := p + [s];
    var r := Commit(t, s);
    assert r.entries == all[|all| - |r.entries|..];
    assert r.entries[|r.entries| - 2] == all[|all| - 2] == p[|p| - 1];
  }

  /** `k` undos in a row. */
  function UndoTimes(t: Timeline, k: nat): (r: Timeline)
    requires WellFormed(t)
    ensures WellFormed(r)
    decreases k
  {
    if k == 0 then t else UndoTimes(Undone(t), k - 1)
  }

  /** `k` redos in a row. */
  function RedoTimes(t: Timeline, k: nat): (r: Timeline)
    requires WellFormed(t)
    ensures WellFormed(r)
    decreases k
  {
    if k == 0 then t else RedoTimes(Redone(t), k - 1)
  }

  /** While there is room, `k` undos move the cursor back by `k` and keep the list. */
  lemma {:induction false} UndoTimesMoves(t: Timeline, k: nat)
    requires WellFormed(t) && k <= t.cursor
    ensures UndoTimes(t, k) == t.(cursor := t.cursor - k)
    decreases k
  {
    if k > 0 {
      UndoTimesMoves(Undone(t), k - 1);
    }
  }

  /** While there is room, `k` redos move the cursor forward by `k` and keep the list. */
  lemma {:induction false} RedoTimesMoves(t: Timeline, k: nat)
    requires WellFormed(t) && t.cursor + k < |t.entries|
    ensures RedoTimes(t, k) == t.(cursor := t.cursor + k)
    decreases k
  {
    if k > 0 {
      RedoTimesMoves(Redone(t), k - 1);
    }
  }

  /**
   * Undoing `k` steps that are there to undo and then redoing `k` steps
   * comes back to the same history and the same current entry, and so to
   * the same element list and raster.
   */
  lemma UndoRedoRoundTrip(t: Timeline, k: nat)
    requires WellFormed(t) && k <= t.cursor
    ensures RedoTimes(UndoTimes(t, k), k) == t
  {
    UndoTimesMoves(t, k);
    RedoTimesMoves(UndoTimes(t, k), k);
  }

  /** A run of commits, in order. */
  function CommitAll(t: Timeline, snapshots: seq<Snapshot>): (r: Timeline)
    requires WellFormed(t)
    ensures WellFormed(r)
    decreases |snapshots|
  {
    if snapshots == [] then t else CommitAll(Commit(t, snapshots[0]), snapshots[1..])
  }

  /**
   * After a run of commits, what undo can reach is the last 50 of what it
   * could reach before, followed by the new snapshots.
   */
  lemma {:induction false} CommitAllKeepsPast(t: Timeline, snapshots: seq<Snapshot>)
    requires WellFormed(t)
    ensures Past(CommitAll(t, snapshots)) == Last(Past(t) + snapshots, MaxHistory)
    decreases |snapshots|
  {
    if snapshots == [] {
      assert Past(t) + snapshots == Past(t);
    } else {
      var first, rest := snapshots[0], snapshots[1..];
      var t1 := Commit(t, first);
      assert CommitAll(t, snapshots) == CommitAll(t1, rest);
      CommitAllKeepsPast(t1, rest);
      PastAfterCommit(t, first);
      LastOfLast(Past(t) + [first], rest, MaxHistory);
      assert Past(t) + [first] + rest == Past(t) + snapshots;
    }
  }

  /** Right after a commit the cursor is on the newest entry, so undo can reach every entry. */
  lemma PastAfterCommit(t: Timeline, s: Snapshot)
    requires WellFormed(t)
    ensures Past(Commit(t, s)) == Last(Past(t) + [s], MaxHistory)
  {
    var r := Commit(t, s);
    assert r.entries[..r.cursor + 1] == r.entries;
  }

  /** After 50 commits or more the history is exactly the 50 newest snapshots, and the newest is current. */
  lemma CommitAllKeepsNewest(t: Timeline, snapshots: seq<Snapshot>)
    requires WellFormed(t) && |snapshots| >= MaxHistory
    ensures CommitAll(t, snapshots).entries == snapshots[|snapshots| - MaxHistory..]
    ensures CommitAll(t, snapshots).cursor == MaxHistory - 1
  {
    var r := CommitAll(t, snapshots);
    var all := Past(t) + snapshots;
    CommitAllEndsAtNewest(t, snapshots);
    CommitAllKeepsPast(t, snapshots);
    assert Past(r) == r.entries by {
      assert r.entries[..r.cursor + 1] == r.entries;
    }
    LastOfLongTail(Past(t), snapshots, MaxHistory);
  }

  /** When the appended part is long enough, keeping the last `n` keeps only appended elements. */
  lemma LastOfLongTail<T>(a: seq<T>, b: seq<T>, n: nat)
    requires |b| >= n
    ensures Last(a + b, n) == b[|b| - n..]
  {
    assert (a + b)[|a + b| - n..] == b[|b| - n..];
  }

  /** After at least one commit the cursor is on the newest entry. */
  lemma {:induction false} CommitAllEndsAtNewest(t: Timeline, snapshots: seq<Snapshot>)
    requires WellFormed(t) && snapshots != []
    ensures CommitAll(t, snapshots).cursor == |CommitAll(t, snapshots).entries| - 1
    decreases |snapshots|
  {
    if |snapshots| > 1 {
      CommitAllEndsAtNewest(Commit(t, snapshots[0]), snapshots[1..]);
    }
  }

  /** Every entry the editor commits carries the raster, read back from the drawing canvas. */
  predicate AllHaveRaster(entries: seq<Snapshot>)
  {
    forall k :: 0 <= k < |entries| ==> entries[k].drawingData.Some?
  }

  /** A commit of a snapshot with a raster keeps every entry carrying one. */
  lemma CommitKeepsRaster(t: Timeline, s: Snapshot)
    requires WellFormed(t) && AllHaveRaster(t.entries) && s.drawingData.Some?
    ensures AllHaveRaster(Commit(t, s).entries)
  {
    var all := Past(t) + [s];
    assert AllHaveRaster(all) by {
      forall k | 0 <= k < |all|
        ensures all[k].drawingData.Some?
      {
        if k < |Past(t)| {
          assert all[k] == t.entries[k];
        }
      }
    }
  }

  /** The raster a restored snapshot leaves on the drawing canvas: its own, or a blank one. */
  function RasterOf(s: Snapshot): seq<Canvas.Segment>
  {
    if s.drawingData.Some? then s.drawingData.value else []
  }

  /**
   * The editor: the live element list (back to front), the selected ids,
   * the tool configuration, the history and its cursor, and the drawing
   * canvas, which is null while it is not mounted.
   */
  class Editor {
    var elements: seq<Element>
    var selectedElements: seq<string>
    var drawingState: DrawingState
    var history: seq<Snapshot>
    var historyIndex: int
    const surface: Canvas.DrawingCanvas?

    /**
     * The history is well formed and every entry carries a raster, the
     * tools are consistent, and the mounted canvas is in a valid state.
     */
    predicate Valid()
      reads this, surface
    {
      && WellFormed(History())
      && AllHaveRaster(history)
      && ToolsConsistent(drawingState)
      && (surface != null ==> surface.Valid())
    }

    function History(): Timeline
      reads this
    {
      Timeline(history, historyIndex)
    }

    /**
     * The history `saveState` leaves when called with `live` on screen: a
     * commit of the element list and the canvas's raster, or nothing while
     * the canvas is not mounted.
     */
    function AfterSave(t: Timeline, live: seq<Element>): Timeline
      requires WellFormed(t)
      reads this, surface
    {
      if surface == null then t else Commit(t, Snapshot(live, Some(surface.strokes)))
    }

    /**
     * The editor as it mounts: an empty page, no selection, drawing off,
     * and the history holding the blank page as its only entry once the
     * drawing canvas is there to read the raster from (the mount-time
     * `saveState`); without the canvas the history stays empty.
     */
    constructor(surface: Canvas.DrawingCanvas?)
      requires surface != null ==> surface.Valid()
      ensures Valid() && this.surface == surface
      ensures elements == [] && selectedElements == [] && drawingState == InitialDrawingState
      ensures History() == AfterSave(EmptyTimeline, [])
      ensures surface != null ==> history == [Snapshot([], Some(surface.strokes))] && historyIndex == 0
      ensures surface == null ==> History() == EmptyTimeline
    {
      elements, selectedElements, drawingState := [], [], InitialDrawingState;
      this.surface := surface;
      if surface != null {
        var blank := Snapshot([], Some(surface.strokes));
        CommitKeepsRaster(EmptyTimeline, blank);
        var t := Commit(EmptyTimeline, blank);
        assert t.entries == [blank];
        history, historyIndex := t.entries, t.cursor;
      } else {
        history, historyIndex := [], -1;
      }
    }

    /**
     * `saveState`: commits the live element list and the raster.  While
     * the canvas is not mounted nothing is recorded (the retry is not
     * modelled).  Nothing but the history changes.
     */
    method SaveState()
      requires Valid()
      modifies this
      ensures Valid()
      ensures History() == AfterSave(old(History()), elements)
      ensures elements == old(elements) && selectedElements == old(selectedElements)
      ensures drawingState == old(drawingState)
    {
      Record(elements);
    }

    /** Commits `live` as the element list, with the canvas's raster. */
    method Record(live: seq<Element>)
      requires Valid()
      modifies this`history, this`historyIndex
      ensures Valid()
      ensures History() == AfterSave(old(History()), live)
      ensures surface != null ==> history[historyIndex].elements == live
    {
      var next := AfterSave(History(), live);
      if surface != null {
        CommitKeepsRaster(History(), Snapshot(live, Some(surface.strokes)));
      }
      history, historyIndex := next.entries, next.cursor;
    }

    /**
     * `undo`, with the composite set back to painting over before the
     * saved raster is drawn: when there is an entry before the current one,
     * the cursor moves back to it, its element list becomes the live one
     * and, when the canvas is mounted, its raster replaces the canvas's.
     * Otherwise nothing changes.
     */
    method Undo()
      requires Valid()
      modifies this, surface
      ensures Valid()
      ensures History() == Undone(old(History()))
      ensures CanUndo(old(History())) ==>
        && elements == history[historyIndex].elements
        && (surface != null ==> surface.State() == old(surface.State()).(strokes := RasterOf(history[historyIndex]),
                                                    pen := old(surface.pen).(op := Canvas.SourceOver)))
      ensures !CanUndo(old(History())) ==>
        elements == old(elements) && (surface != null ==> surface.State() == old(surface.State()))
      ensures selectedElements == old(selectedElements) && drawingState == old(drawingState)
    {
      if historyIndex > 0 {
        var previous := history[historyIndex - 1];
        elements := previous.elements;
        historyIndex := historyIndex - 1;
        if surface != null {
          surface.Restore(previous.drawingData);
        }
      }
    }

    /**
     * `undo` as written: the saved raster is drawn under the composite the
     * last stroke left on the context, so after an eraser stroke the
     * canvas comes back blank instead of holding the entry's raster.
     */
    method UndoAsWritten()
      requires Valid()
      modifies this, surface
      ensures Valid()
      ensures History() == Undone(old(History()))
      ensures CanUndo(old(History())) ==>
        && elements == history[historyIndex].elements
        && (surface != null ==>
              surface.State() == old(surface.State()).(strokes := Canvas.Redrawn(old(surface.pen.op), history[historyIndex].drawingData)))
      ensures CanUndo(old(History())) && surface != null && old(surface.pen.op) == Canvas.DestinationOut ==>
        surface.strokes == []
      ensures !CanUndo(old(History())) ==>
        elements == old(elements) && (surface != null ==> surface.State() == old(surface.State()))
      ensures selectedElements == old(selectedElements) && drawingState == old(drawingState)
    {
      if historyIndex > 0 {
        var previous := history[historyIndex - 1];
        elements := previous.elements;
        historyIndex := historyIndex - 1;
        if surface != null {
          surface.RestoreAsWritten(previous.drawingData);
        }
      }
    }

    /** `redo`, with the same composite reset: the mirror image of `Undo`, one entry forward. */
    method Redo()
      requires Valid()
      modifies this, surface
      ensures Valid()
      ensures History() == Redone(old(History()))
      ensures CanRedo(old(History())) ==>
        && elements == history[historyIndex].elements
        && (surface != null ==> surface.State() == old(surface.State()).(strokes := RasterOf(history[historyIndex]),
                                                    pen := old(surface.pen).(op := Canvas.SourceOver)))
      ensures !CanRedo(old(History())) ==>
        elements == old(elements) && (surface != null ==> surface.State() == old(surface.State()))
      ensures selectedElements == old(selectedElements) && drawingState == old(drawingState)
    {
      if historyIndex < |history| - 1 {
        var next := history[historyIndex + 1];
        elements := next.elements;
        historyIndex := historyIndex + 1;
        if surface != null {
          surface.Restore(next.drawingData);
        }
      }
    }

    /** `redo` as written: the same loss of the raster after an eraser stroke as `UndoAsWritten`. */
    method RedoAsWritten()
      requires Valid()
      modifies this, surface
      ensures Valid()
      ensures History() == Redone(old(History()))
      ensures CanRedo(old(History())) ==>
        && elements == history[historyIndex].elements
        && (surface != null ==>
              surface.State() == old(surface.State()).(strokes := Canvas.Redrawn(old(surface.pen.op), history[historyIndex].drawingData)))
      ensures CanRedo(old(History())) && surface != null && old(surface.pen.op) == Canvas.DestinationOut ==>
        surface.strokes == []
      ensures !CanRedo(old(History())) ==>
        elements == old(elements) && (surface != null ==> surface.State() == old(surface.State()))
      ensures selectedElements == old(selectedElements) && drawingState == old(drawingState)
    {
      if historyIndex < |history| - 1 {
        var next := history[historyIndex + 1];
        elements := next.elements;
        historyIndex := historyIndex + 1;
        if surface != null {
          surface.RestoreAsWritten(next.drawingData);
        }
      }
    }

    /** `addElement` followed by its commit; the selection is left as it was. */
    method AddElement(kind: string, index: int, id: string)
      requires Valid()
      modifies this
      ensures Valid()
      ensures elements == Scene.AddElement(old(elements), kind, index, id)
      ensures selectedElements == old(selectedElements) && drawingState == old(drawingState)
      ensures History() == AfterSave(old(History()), elements)
    {
      elements := Scene.AddElement(elements, kind, index, id);
      SaveState();
    }

    /** `updateElement`: merges the patch into the element carrying `id`; no commit. */
    method UpdateElement(id: string, p: Patch)
      requires Valid()
      modifies this
      ensures Valid()
      ensures elements == Scene.UpdateElement(old(elements), id, p)
      ensures selectedElements == old(selectedElements) && drawingState == old(drawingState)
      ensures History() == old(History())
    {
      elements := Scene.UpdateElement(elements, id, p);
    }

    /**
     * `deleteSelected`: removes every selected element, empties the
     * selection, and commits the list it leaves, so the current history
     * entry is what is on screen.
     */
    method DeleteSelected()
      requires Valid()
      modifies this
      ensures Valid()
      ensures elements == Scene.DeleteSelected(old(elements), old(selectedElements))
      ensures selectedElements == [] && drawingState == old(drawingState)
      ensures History() == AfterSave(old(History()), elements)
      ensures surface != null ==> history[historyIndex].elements == elements
    {
      elements := Scene.DeleteSelected(elements, selectedElements);
      selectedElements := [];
      SaveState();
    }

    /**
     * `deleteSelected` as its commit actually reads the state: the commit
     * runs in the same event as the deletion and sees the element list from
     * before it, so the current history entry still holds the deleted
     * elements, and an undo followed by a redo brings them back.
     */
    method DeleteSelectedAsWritten()
      requires Valid()
      modifies this
      ensures Valid()
      ensures elements == Scene.DeleteSelected(old(elements), old(selectedElements))
      ensures selectedElements == [] && drawingState == old(drawingState)
      ensures History() == AfterSave(old(History()), old(elements))
      ensures surface != null ==> history[historyIndex].elements == old(elements)
      ensures forall k :: 0 <= k < |old(elements)| && old(elements)[k].id in old(selectedElements) ==>
        surface != null ==> history[historyIndex].elements != elements
    {
      var before := elements;
      elements := Scene.DeleteSelected(elements, selectedElements);
      selectedElements := [];
      Record(before);
      forall k | 0 <= k < |before| && before[k].id in old(selectedElements)
        ensures surface != null ==> history[historyIndex].elements != elements
      {
        assert before[k] in before && before[k] !in elements;
      }
    }

    /** `deleteElement`: removes the element from the list and its id from the selection, commits. */
    method DeleteElement(id: string)
      requires Valid()
      modifies this
      ensures Valid()
      ensures elements == Scene.DeleteElement(old(elements), id)
      ensures selectedElements == Deselect(old(selectedElements), id) && drawingState == old(drawingState)
      ensures History() == AfterSave(old(History()), elements)
    {
      elements := Scene.DeleteElement(elements, id);
      selectedElements := Deselect(selectedElements, id);
      SaveState();
    }

    /** `toggleElementVisibility`: flips the element's flag, commits. */
    method ToggleElementVisibility(id: string)
      requires Valid()
      modifies this
      ensures Valid()
      ensures elements == ToggleVisibility(old(elements), id)
      ensures selectedElements == old(selectedElements) && drawingState == old(drawingState)
      ensures History() == AfterSave(old(History()), elements)
    {
      elements := ToggleVisibility(elements, id);
      SaveState();
    }

    /** `moveLayer`: swaps the element with its neighbour in the given direction, commits. */
    method MoveLayer(id: string, direction: Direction)
      requires Valid()
      modifies this
      ensures Valid()
      ensures elements == Reordered(old(elements), id, direction)
      ensures selectedElements == old(selectedElements) && drawingState == old(drawingState)
      ensures History() == AfterSave(old(History()), elements)
    {
      elements := Scene.MoveLayer(elements, id, direction);
      SaveState();
    }

    /** `selectElement`: the selection becomes exactly `[id]` and the flags follow; no commit. */
    method SelectElement(id: string)
      requires Valid()
      modifies this
      ensures Valid()
      ensures selectedElements == [id] && elements == Scene.SelectElement(old(elements), id)
      ensures drawingState == old(drawingState) && History() == old(History())
    {
      selectedElements := [id];
      elements := Scene.SelectElement(elements, id);
    }

    /** `clearSelection`: nothing is selected and no flag is set; no commit. */
    method ClearSelection()
      requires Valid()
      modifies this
      ensures Valid()
      ensures selectedElements == [] && elements == Scene.ClearSelection(old(elements))
      ensures drawingState == old(drawingState) && History() == old(History())
    {
      selectedElements := [];
      elements := Scene.ClearSelection(elements);
    }

    /** A control of the sidebar's drawing card hands the merged tool configuration back. */
    method UseSidebar(a: Sidebar.SidebarAction)
      requires Valid()
      modifies this
      ensures Valid()
      ensures drawingState == Sidebar.ApplySidebar(old(drawingState), a)
      ensures elements == old(elements) && selectedElements == old(selectedElements)
      ensures History() == old(History())
    {
      Sidebar.SidebarKeepsToolsConsistent(drawingState, a);
      drawingState := Sidebar.ApplySidebar(drawingState, a);
    }

    /** A control of the bottom toolbar hands the merged tool configuration back. */
    method UseToolbar(a: DrawingTools.ToolbarAction)
      requires Valid()
      modifies this
      ensures Valid()
      ensures drawingState == DrawingTools.ApplyToolbar(old(drawingState), a)
      ensures elements == old(elements) && selectedElements == old(selectedElements)
      ensures History() == old(History())
    {
      DrawingTools.ToolbarKeepsToolsConsistent(drawingState, a);
      drawingState := DrawingTools.ApplyToolbar(drawingState, a);
    }

    /**
     * The document keydown handler: decides what the key asks for and
     * does it.  `typing` is focus in a text field.
     */
    method HandleKeyDown(ctrlOrMeta: bool, shift: bool, key: string, typing: bool) returns (command: KeyCommand)
      requires Valid()
      modifies this, surface
      ensures Valid()
      ensures command == KeyAction(ctrlOrMeta, shift, key, typing, |old(selectedElements)| > 0)
      ensures drawingState == old(drawingState)
      ensures command == UndoKey ==>
        && History() == Undone(old(History())) && selectedElements == old(selectedElements)
        && (CanUndo(old(History())) ==>
              && elements == history[historyIndex].elements
              && (surface != null ==> surface.State() == old(surface.State()).(strokes := RasterOf(history[historyIndex]),
                                                    pen := old(surface.pen).(op := Canvas.SourceOver))))
        && (!CanUndo(old(History())) ==>
              elements == old(elements) && (surface != null ==> surface.State() == old(surface.State())))
      ensures command == RedoKey ==>
        && History() == Redone(old(History())) && selectedElements == old(selectedElements)
        && (CanRedo(old(History())) ==>
              && elements == history[historyIndex].elements
              && (surface != null ==> surface.State() == old(surface.State()).(strokes := RasterOf(history[historyIndex]),
                                                    pen := old(surface.pen).(op := Canvas.SourceOver))))
        && (!CanRedo(old(History())) ==>
              elements == old(elements) && (surface != null ==> surface.State() == old(surface.State())))
      ensures command == DeleteKey ==>
        && elements == Scene.DeleteSelected(old(elements), old(selectedElements)) && selectedElements == []
        && History() == AfterSave(old(History()), elements)
        && (surface != null ==> surface.State() == old(surface.State()))
      ensures command == NoCommand ==>
        && elements == old(elements) && selectedElements == old(selectedElements) && History() == old(History())
        && (surface != null ==> surface.State() == old(surface.State()))
    {
      command := KeyAction(ctrlOrMeta, shift, key, typing, |selectedElements| > 0);
      match command
      case UndoKey => Undo();
      case RedoKey => Redo();
      case DeleteKey => DeleteSelected();
      case NoCommand =>
    }

    /**
     * Pointer down on the drawing canvas: the surface takes the step
     * `startDrawing` describes, and the second tap of a line commits the
     * raster it leaves.
     */
    method CanvasPointerDown(pos: Point)
      requires Valid() && surface != null
      modifies this, surface
      ensures Valid()
      ensures elements == old(elements) && selectedElements == old(selectedElements)
      ensures drawingState == old(drawingState)
      ensures !drawingState.isDrawing ==> surface.State() == old(surface.State())
      ensures drawingState.isDrawing && drawingState.isLineMode && !old(surface.isLineDrawing) ==>
        surface.State() == old(surface.State()).(isLineDrawing := true, lineStart := Some(pos), linePreview := None)
      ensures drawingState.isDrawing && drawingState.isLineMode && old(surface.isLineDrawing) ==>
        && surface.strokes == old(surface.strokes)
             + [Canvas.Segment(old(surface.lineStart).value, pos, drawingState.color, drawingState.brushSize,
                               Canvas.CompositeFor(drawingState))]
        && surface.State() == old(surface.State()).(isLineDrawing := false, lineStart := None, linePreview := None,
                                                    strokes := surface.strokes, pen := Canvas.PenFor(drawingState),
                                                    pathEnd := Some(pos))
      ensures drawingState.isDrawing && !drawingState.isLineMode ==>
        surface.State() == old(surface.State()).(isDrawing := true, lastPoint := Some(pos),
                                                 pen := Canvas.PenFor(drawingState), pathEnd := Some(pos))
      ensures History() == if drawingState.isDrawing && drawingState.isLineMode && old(surface.isLineDrawing)
        then Commit(old(History()), Snapshot(elements, Some(surface.strokes))) else old(History())
    {
      var commit := surface.StartDrawing(drawingState, pos);
      if commit {
        SaveState();
      }
    }

    /**
     * Pointer up or leave on the drawing canvas: outside line mode the
     * freehand stroke ends and the raster is committed; otherwise nothing
     * happens.
     */
    method CanvasPointerUp()
      requires Valid() && surface != null
      modifies this, surface
      ensures Valid()
      ensures elements == old(elements) && selectedElements == old(selectedElements)
      ensures drawingState == old(drawingState)
      ensures drawingState.isDrawing && !drawingState.isLineMode ==>
        surface.State() == old(surface.State()).(isDrawing := false, lastPoint := None)
      ensures !(drawingState.isDrawing && !drawingState.isLineMode) ==> surface.State() == old(surface.State())
      ensures History() == if drawingState.isDrawing && !drawingState.isLineMode
        then Commit(old(History()), Snapshot(elements, Some(surface.strokes))) else old(History())
    {
      var commit := surface.StopDrawing(drawingState);
      if commit {
        SaveState();
      }
    }

    /** A click on the page clears the selection when the drawing canvas allows it. */
    method CanvasClick(onBackground: bool)
      requires Valid() && surface != null
      modifies this
      ensures Valid()
      ensures var clear := !drawingState.isDrawing && !surface.isDrawing && !surface.isLineDrawing && onBackground;
        && (clear ==> selectedElements == [] && elements == Scene.ClearSelection(old(elements)))
        && (!clear ==> selectedElements == old(selectedElements) && elements == old(elements))
      ensures History() == old(History()) && drawingState == old(drawingState)
      ensures surface.State() == old(surface.State())
    {
      var clear := surface.CanvasClick(drawingState, onBackground);
      if clear {
        ClearSelection();
      }
    }

    /** Pointer down on a handle of the element at position `i`: selects it unless it is selected. */
    method ElementPointerDown(c: Transform.TransformController, i: nat, action: Transform.Gesture, pos: Point, angle: Option<real>)
      requires Valid() && i < |elements|
      modifies this, c
      ensures Valid()
      ensures old(elements[i].id) !in old(selectedElements) ==>
        selectedElements == [old(elements[i].id)] && elements == Scene.SelectElement(old(elements), old(elements[i].id))
      ensures old(elements[i].id) in old(selectedElements) ==>
        selectedElements == old(selectedElements) && elements == old(elements)
      ensures History() == old(History()) && drawingState == old(drawingState)
      ensures action == Transform.Drag ==>
        && c.isDragging && c.dragStart == Some(Transform.DragStart(pos.x, pos.y, old(elements[i]).x, old(elements[i]).y))
        && unchanged(c`isResizing, c`isRotating, c`resizeStart, c`rotateStart)
      ensures action == Transform.Resize ==>
        && c.isResizing
        && c.resizeStart == Some(Transform.ResizeStart(pos.x, pos.y, old(elements[i]).width, old(elements[i]).height))
        && unchanged(c`isDragging, c`isRotating, c`dragStart, c`rotateStart)
      ensures action == Transform.Rotate ==>
        && c.isRotating
        && c.rotateStart == (if angle.Some? then Some(Transform.RotateStart(angle.value, old(elements[i]).rotation))
                             else old(c.rotateStart))
        && unchanged(c`isDragging, c`isResizing, c`dragStart, c`resizeStart)
    {
      var el := elements[i];
      var select := c.PointerDown(el, el.id in selectedElements, action, pos, angle);
      if select {
        SelectElement(el.id);
      }
    }

    /** A pointer move during a gesture on the element at position `i` applies the gesture's update. */
    method ElementPointerMove(c: Transform.TransformController, i: nat, pos: Point, angle: Option<real>)
      requires Valid() && i < |elements|
      modifies this
      ensures Valid()
      ensures c.Idle() ==> elements == old(elements)
      ensures c.isDragging && c.dragStart.Some? ==>
        elements == Scene.UpdateElement(old(elements), old(elements[i].id),
                                        Transform.DragPatch(c.dragStart.value, old(elements[i]), pos))
      ensures !(c.isDragging && c.dragStart.Some?) && c.isResizing && c.resizeStart.Some? ==>
        elements == Scene.UpdateElement(old(elements), old(elements[i].id), Transform.ResizePatch(c.resizeStart.value, pos))
      ensures !(c.isDragging && c.dragStart.Some?) && !(c.isResizing && c.resizeStart.Some?) ==>
        elements == if c.isRotating && c.rotateStart.Some? && angle.Some?
          then Scene.UpdateElement(old(elements), old(elements[i].id), Transform.RotatePatch(c.rotateStart.value, angle.value))
          else old(elements)
      ensures selectedElements == old(selectedElements) && History() == old(History())
      ensures drawingState == old(drawingState)
    {
      var el := elements[i];
      var update := c.PointerMove(el, pos, angle);
      if update.Some? {
        UpdateElement(el.id, update.value);
      }
    }

    /** Pointer up after a gesture: commits exactly when a gesture was in progress. */
    method ElementPointerUp(c: Transform.TransformController)
      requires Valid()
      modifies this, c
      ensures Valid() && c.Idle()
      ensures elements == old(elements) && selectedElements == old(selectedElements)
      ensures drawingState == old(drawingState)
      ensures History() == if old(c.isDragging || c.isResizing || c.isRotating)
        then AfterSave(old(History()), elements) else old(History())
    {
      var commit := c.PointerUp();
      if commit {
        SaveState();
      }
    }
  }

  /**
   * One eraser stroke and then undo, as the source has it: undo goes back
   * to the entry that was current before the stroke, yet the drawing layer
   * comes back blank, because the eraser's composite is still set when the
   * saved raster is drawn.
   */
  method EraseThenUndoAsWritten(e: Editor, at: Point)
    requires e.Valid() && e.surface != null && e.history != []
    requires e.drawingState.isDrawing && e.drawingState.isErasing && !e.drawingState.isLineMode
    modifies e, e.surface
    ensures e.Valid()
    ensures e.history != [] && e.history[e.historyIndex] == old(e.history[e.historyIndex])
    ensures e.surface.strokes == []
  {
    e.CanvasPointerDown(at);
    var before := e.History();
    e.CanvasPointerUp();
    UndoAfterCommitReturns(before, e.history[e.historyIndex]);
    e.UndoAsWritten();
  }

  /**
   * The same stroke and undo with the composite reset before the redraw:
   * the drawing layer holds the raster of the entry undo returns to.
   */
  method EraseThenUndo(e: Editor, at: Point)
    requires e.Valid() && e.surface != null && e.history != []
    requires e.drawingState.isDrawing && e.drawingState.isErasing && !e.drawingState.isLineMode
    modifies e, e.surface
    ensures e.Valid()
    ensures e.history != [] && e.history[e.historyIndex] == old(e.history[e.historyIndex])
    ensures e.surface.strokes == RasterOf(old(e.history[e.historyIndex]))
  {
    e.CanvasPointerDown(at);
    var before := e.History();
    e.CanvasPointerUp();
    UndoAfterCommitReturns(before, e.history[e.historyIndex]);
    e.Undo();
  }
}
