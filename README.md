# A4 collage editor: verified model of the scene and history engine

This project is a Dafny model of the engine inside a single-page editor. The editor composes one A4 page (794 × 1123 CSS pixels) out of two things:

- positioned picture elements (a background "head" and facial features), and
- freehand or straight-line ink.

The model covers the following parts:

- **Snapshot history** (module `App`). A commit discards the redo tail, appends a snapshot and moves the cursor to it. The history keeps at most 50 entries. `undo` and `redo` move the cursor one step and restore the snapshot's element list and raster. As written, the raster is redrawn under the compositing mode the last stroke left behind, so after an eraser stroke it comes back blank (see Findings). The editor model resets the mode to painting before redrawing. The pure timeline functions carry the laws. The `Editor` class holds the same state as fields and is proved against those functions.
- **Scene store** (module `Scene`). The ordered element list, from back to front, with these operations:
  - adding an element, with default geometry and the CDN asset URL;
  - merging partial updates into an element;
  - deleting an element, or deleting the selection;
  - toggling visibility;
  - moving a layer one step up or down;
  - selecting an element and clearing the selection;
  - deciding what a key press asks for (undo, redo, delete).
- **Element gestures** (module `Transform`). Pressing an element's body, resize handle or rotate handle starts a drag, a resize or a rotation:
  - a drag keeps the element on the page;
  - a resize never goes below 20 px;
  - a rotation adds the swept angle.

  Releasing the pointer commits only when a gesture was in progress.
- **Drawing surface** (module `Canvas`). Freehand strokes have three steps: begin, extend, end. The line tool works in two taps, with a preview between them that never touches the raster. Erasing uses destination-out compositing. The raster is the sequence of segments stroked onto it.
- **Layers panel** (module `Layers`):
  - the listing runs front to back;
  - the up/down buttons are disabled at the ends of the list, which are exactly the cases where moving the layer would do nothing;
  - layer names and icons;
  - the eye state, which is `Scene.IsShown` (an element is shown unless its flag is false), and the row highlight.
- **Tool configuration** (modules `DrawingConfig`, `Sidebar`, `DrawingTools`). These hold the record merges of the sidebar and toolbar controls, which never turn the eraser and the line tool on together. They also hold the category folding, the status label and the delete button's enabled state.

`getTypePrefix` appears twice in the source, at `src/App.tsx:144-154` and `src/components/Sidebar.tsx:84-94`, with identical bodies. Both are modelled by `Scene.TypePrefix`.

Three behaviours of the code that a reader might not expect are modelled as the code has them:

- `addElement` does not select the new element. It is created with `selected: false` and the selection list is left alone (`src/App.tsx:135`, `src/App.tsx:139`).
- Disabling drawing does not reset a pending line or freehand stroke. The surface keeps `isLineDrawing` and `lineStart` until the next tap (`src/components/Canvas.tsx:90`).
- `updateElement` does not commit. Gestures commit once, on pointer-up (`src/App.tsx:156-158`, `src/components/CanvasElement.tsx:128-131`).

## Model

| member | source | states |
|---|---|---|
| Scene.MergeLaws | src/App.tsx:157 | Merging a partial update is idempotent, and the empty update leaves the element unchanged. |
| Scene.TypePrefix | src/App.tsx:144-154 | Known categories are matched case-insensitively and map to their fixed prefix. Any other kind is returned exactly as given. |
| Scene.TypePrefixIgnoresCase | src/App.tsx:145 | Lower-casing a kind first gives the same prefix when the kind is known. An unknown kind, lower-cased first, comes back lower-cased. |
| Scene.AddElement | src/App.tsx:120-139 | Exactly one element is appended and the existing prefix of the list is unchanged. The new element has the given id, kind and index, rotation 0, is visible and not selected, and its src is the CDN URL built from the prefix and index. "head" fills the page. Any other kind is 80×80 and centred on the page. |
| Scene.AddedElementOnPage | src/App.tsx:129-132 | A new element of any kind lies entirely inside the page. |
| Scene.UpdateElement | src/App.tsx:156-158 | Same length. Elements carrying the id take the merged fields. Every other element is unchanged. Ids are kept unless the update sets one. |
| Scene.DeleteElement | src/App.tsx:166-167 | An element survives exactly when it was present and does not carry the id. |
| Scene.Deselect | src/App.tsx:168 | An id stays selected exactly when it was selected and is not the deleted one. |
| Scene.DeleteElementIdempotent | src/App.tsx:166-170 | Deleting the same id twice equals deleting it once, for both the list and the selection. |
| Scene.DeleteElementKeepsOrder | src/App.tsx:167 | Deletion distributes over concatenation, so survivors keep their relative order. |
| Scene.DeleteSelected | src/App.tsx:160-162 | An element survives exactly when it was present and its id is not selected. |
| Scene.DeleteSelectedThenNothing | src/App.tsx:160-163 | After deleting the selection, a second delete with the empty selection it leaves removes nothing. |
| Scene.ToggleVisibility | src/App.tsx:172-175 | Only elements carrying the id change. Their flag becomes `!visible`, and a missing flag becomes true. |
| Scene.ToggleVisibilityFlips | src/App.tsx:174 | The shown/hidden state flips exactly when the flag was present. Toggling a present flag twice restores the element. |
| Scene.FindIndex | src/App.tsx:181 | Returns -1 exactly when no element carries the id. Otherwise it returns the first position that does. |
| Scene.Reordered | src/App.tsx:179-192 | The result is a permutation of the input with the same length. It is a no-op for a missing id or at the boundary. Otherwise the element and its neighbour in the given direction trade places and nothing else moves. |
| Scene.SwapPreservesMultiset | src/App.tsx:188 | Swapping two cells keeps the multiset of elements. |
| Scene.MoveLayer | src/App.tsx:179-192 | The swap performed in a fresh array yields exactly the reordered list. |
| Scene.SelectElement | src/App.tsx:196-199 | Every element's flag becomes whether it carries the id. Nothing else changes. |
| Scene.ClearSelection | src/App.tsx:201-204 | Every flag is cleared. Nothing else changes. |
| Scene.KeyAction | src/App.tsx:502-523 | Undo iff Ctrl/Cmd+z without Shift while not typing. Redo iff Ctrl/Cmd with y, or Shift+z, while not typing. Delete iff Delete/Backspace with a selection while not typing. Typing always means no command. |
| DrawingConfig.UpdateDrawingState | src/components/Sidebar.tsx:96-98 | Each field given in the update replaces the state's field. Every field not given is kept. |
| DrawingConfig.InitialToolsConsistent | src/App.tsx:36-43 | The initial configuration has eraser and line tool off and a brush size within the slider's range. |
| Sidebar.ToggleCategory | src/components/Sidebar.tsx:76-82 | The category's membership flips, every other category's membership is kept, and an unfolded category is appended at the end. |
| Sidebar.ToggleCategoryTwice | src/components/Sidebar.tsx:76-82 | Unfolding a folded category and folding it again returns exactly the original list. |
| Sidebar.ToggleCategoryInvolution | src/components/Sidebar.tsx:76-82 | Toggling twice restores the membership of every category, from any list. |
| Sidebar.ApplySidebar | src/components/Sidebar.tsx:133-225 | The draw switch sets drawing and free-draw to the same value. The free-draw switch clears eraser and line tool. Erase and line each toggle their own flag and clear the other. Colour and brush set only their own field. |
| Sidebar.SidebarKeepsToolsConsistent | src/components/Sidebar.tsx:163-180 | No sidebar control turns the eraser and the line tool on together or leaves the 1..20 brush range. |
| Sidebar.SidebarSessionConsistent | src/components/Sidebar.tsx:133-229 | Every sequence of sidebar controls preserves that consistency. |
| DrawingTools.ApplyToolbar | src/components/DrawingTools.tsx:59-136 | The draw button flips only isDrawing. Erase and line toggle their own flag and clear the other. Colour and brush set only their field. |
| DrawingTools.ToolbarKeepsToolsConsistent | src/components/DrawingTools.tsx:73-89 | No toolbar control turns the eraser and the line tool on together or leaves the brush range. |
| DrawingTools.ToolbarSessionConsistent | src/components/DrawingTools.tsx:59-136 | Every sequence of toolbar controls preserves that consistency. |
| DrawingTools.StatusLabel | src/components/DrawingTools.tsx:152-157 | The label is shown iff drawing is on. "Free " is prefixed in free-draw mode. Erasing takes priority over Line Mode, which takes priority over Drawing. |
| DrawingTools.DisabledDeleteRemovesNothing | src/components/DrawingTools.tsx:186 | When the delete button is disabled, deleting the selection would remove nothing. |
| Layers.Listing | src/components/LayersPanel.tsx:50 | Same length, and row k shows the element at position n-1-k. |
| Layers.ListingFrontFirst | src/components/LayersPanel.tsx:50 | A newly appended element heads the listing above the previous listing. Listing twice restores scene order. |
| Layers.FindOwnIndex | src/App.tsx:181 | With distinct ids, looking up an element's id finds its own position. |
| Layers.UpDisabledExactlyAtFront | src/components/LayersPanel.tsx:106 | With distinct ids, a row's up button is disabled iff moving that element up would leave the list unchanged. |
| Layers.DownDisabledExactlyAtBack | src/components/LayersPanel.tsx:119 | With distinct ids, a row's down button is disabled iff moving that element down would leave the list unchanged. |
| Layers.Capitalize | src/components/LayersPanel.tsx:32 | Same length. The first letter is upper-cased and the rest is unchanged. |
| Layers.Prefix | src/components/LayersPanel.tsx:27 | Returns the first min(n, length) characters, and the result is a prefix of the input. |
| Common.IntToString | src/components/LayersPanel.tsx:32 | The decimal text of an integer: digits without a leading zero that read back as the number, after a minus sign when it is negative. |
| Layers.LayerName | src/components/LayersPanel.tsx:25-33 | A signature gives "Signature: " followed by the first 15 characters of its text and "...". An uploaded image gives "Uploaded Image". Any other element gives the capitalised kind, a space and the decimal index. |
| Layers.LayerIcon | src/components/LayersPanel.tsx:35-47 | The masks icon appears exactly for kinds outside the eight known ones. The writing and camera icons appear exactly for signature and uploaded. |
| Layers.SelectHighlightsOnlyTarget | src/components/LayersPanel.tsx:75-78 | After selecting an id, a row is highlighted, and its element flagged, exactly when it carries that id. |
| Canvas.CompositeFor | src/components/Canvas.tsx:110 | The result is destination-out iff erasing. |
| Canvas.Polyline | src/components/Canvas.tsx:145-147 | A freehand stroke through n points consists of n segments, each running from the previous point to the next. |
| Canvas.DrawingCanvas.constructor | src/components/Canvas.tsx:33-37 | Starts blank and idle, with no line pending, no preview and the context's default pen. |
| Canvas.DrawingCanvas.StartDrawing | src/components/Canvas.tsx:89-129 | With drawing off, nothing changes. The first line tap records the start and clears the preview, without touching the raster or committing. The second tap appends exactly one segment from the start to the tap, in the current colour and width, composited by the eraser flag, then leaves the pending state and commits. A freehand tap starts a stroke at the tap with the current pen. |
| Canvas.DrawingCanvas.ContinueDrawing | src/components/Canvas.tsx:131-150 | While a line is pending, a move sets only the preview from the start to the pointer. During a freehand stroke, a move appends one segment from the path end in the stroke's pen. Otherwise nothing changes. |
| Canvas.DrawingCanvas.StopDrawing | src/components/Canvas.tsx:152-160 | Commits iff drawing is on and not in line mode, even with no stroke active. It then clears only isDrawing and lastPoint. Otherwise nothing changes. |
| Canvas.DrawingCanvas.CanvasClick | src/components/Canvas.tsx:163-172 | Asks to clear the selection iff drawing is off, no stroke or line is pending, and the click is on the background. |
| Canvas.Redrawn | src/App.tsx:83-84 | What clearing and then drawing a saved raster leaves, under a compositing mode. Painting over gives the saved raster, or blank when there is none. Cutting out (the eraser's mode) always leaves blank. |
| Canvas.ErasingCompositeLosesRaster | src/App.tsx:83-84 | A raster with any ink in it is lost when it is redrawn under the eraser's mode, and kept when it is redrawn painting over. |
| Canvas.DrawingCanvas.RestoreAsWritten | src/App.tsx:81-91 | As the source behaves: the raster becomes what the saved one redraws to under the context's current mode, and is blank whenever the last stroke was an eraser stroke. Nothing else changes. |
| Canvas.DrawingCanvas.Restore | src/App.tsx:81-91 | Corrected: the mode is set back to painting over first. The raster then becomes the saved one, or blank when there is none. Nothing else changes. |
| Canvas.DrawLine | src/components/Canvas.tsx:97-144 | A first tap, any number of moves and a second tap add exactly one segment from the first tap to the second. They commit only on the second tap. |
| Canvas.DrawFreehand | src/components/Canvas.tsx:119-160 | Pointer down, moves and pointer up add the polyline through the points in the pen chosen at pointer down. They commit only at pointer up. |
| Transform.DragAxis | src/components/CanvasElement.tsx:98-99 | The result lies in [0, extent-size]. It is 0 when the element is larger than the page, and start+delta when that fits. Otherwise it is the nearer bound. |
| Transform.ResizeDim | src/components/CanvasElement.tsx:110-111 | Never below 20. Equals start+delta whenever that sum is at least 20. |
| Transform.DragPatch | src/components/CanvasElement.tsx:93-104 | A drag updates only x and y and keeps an element that fits on the page inside it. |
| Transform.DragDependsOnTravelOnly | src/components/CanvasElement.tsx:94-99 | The drag target does not depend on where the element has moved meanwhile. It depends on the pointer only through its total travel since pointer-down. |
| Transform.ResizePatch | src/components/CanvasElement.tsx:105-112 | A resize updates only width and height, never below 20, and follows the pointer exactly above the floor. |
| Transform.RotatePatch | src/components/CanvasElement.tsx:113-124 | A rotation updates only the rotation, by exactly the swept angle, with no normalisation. |
| Transform.TransformController.constructor | src/components/CanvasElement.tsx:20-25 | The controller starts idle. |
| Transform.TransformController.PointerDown | src/components/CanvasElement.tsx:45-84 | Asks to select iff the element is not selected. It raises only the pressed handle's flag and records only its start. A rotation records its start only when the angle is known. |
| Transform.TransformController.PointerMove | src/components/CanvasElement.tsx:88-126 | A drag takes priority over a resize, and a resize over a rotation. Each produces its own patch computed from the recorded start. With no gesture, or a rotation without an angle, nothing is produced. Moves change no gesture state. |
| Transform.TransformController.PointerUp | src/components/CanvasElement.tsx:128-139 | Commits iff some gesture flag was set. Afterwards all flags are false and all starts are cleared. |
| Transform.StartFromIdle | src/components/CanvasElement.tsx:45-83 | From idle, a press sets exactly the pressed handle's flag and start record. |
| App.Commit | src/App.tsx:61-69 | The result is well formed, at most 50 entries. The cursor is on the new snapshot. The entries are the last 50 of the kept past plus the snapshot: the past plus the snapshot below the cap, and the oldest evicted at the cap. |
| App.Undone | src/App.tsx:72-76 | The entries are kept. It is a no-op exactly when undo is disabled. Otherwise the cursor moves back by one. |
| App.Redone | src/App.tsx:96-100 | The entries are kept. It is a no-op exactly when redo is disabled. Otherwise the cursor moves forward by one. |
| App.UndoAfterCommitReturns | src/App.tsx:72-77 | After a commit onto a non-empty history, undo is enabled and returns to the entry that was current before the commit. |
| App.CommitDiscardsRedo | src/App.tsx:61-64 | After a commit, redo is disabled and does nothing. Undo is enabled iff some entry was kept before the snapshot. |
| App.UndoTimesMoves | src/App.tsx:73-76 | k undos with room move the cursor back by k and keep the entries. |
| App.RedoTimesMoves | src/App.tsx:97-100 | k redos with room move the cursor forward by k and keep the entries. |
| App.UndoRedoRoundTrip | src/App.tsx:72-118 | k undos followed by k redos restore the same history and cursor. |
| App.CommitAllKeepsPast | src/App.tsx:61-69 | After any run of commits, the reachable past is the last 50 of the old past followed by the new snapshots. |
| App.CommitAllKeepsNewest | src/App.tsx:66-69 | After 50 or more commits, the history is exactly the 50 newest snapshots, with the cursor on the newest. |
| App.CommitAllEndsAtNewest | src/App.tsx:64-68 | After any non-empty run of commits, the cursor is on the last entry. |
| App.CommitKeepsRaster | src/App.tsx:56-59 | Committing a snapshot that carries a raster keeps every entry carrying one. |
| App.Editor.constructor | src/App.tsx:34-45 | The editor starts with no elements, no selection and the initial tools. With the drawing canvas mounted, the history holds the blank page and its raster as its only entry (the mount-time save, `src/App.tsx:486-488`). Without it, the history is empty with cursor -1. |
| App.Editor.SaveState | src/App.tsx:49-70 | With the canvas mounted, commits the live list and the raster. With it unmounted, records nothing. Nothing else changes. |
| App.Editor.Undo | src/App.tsx:72-94 | Corrected: the history steps back as specified by Undone. When undo is enabled, the live list becomes the target snapshot's. A mounted canvas gets its raster, or a blank raster, whatever tool was used last, and its mode is painting over. Otherwise nothing changes. |
| App.Editor.UndoAsWritten | src/App.tsx:72-94 | As the source behaves: the same history step and list as Undo. A mounted canvas gets the target raster redrawn under the mode the last stroke left, which is blank after an eraser stroke. |
| App.Editor.Redo | src/App.tsx:96-118 | Corrected: the history steps forward as specified by Redone. When redo is enabled, the live list becomes the target snapshot's. A mounted canvas gets its raster whatever tool was used last, and its mode is painting over. Otherwise nothing changes. |
| App.Editor.RedoAsWritten | src/App.tsx:96-118 | As the source behaves: the same history step and list as Redo. The raster is blank after an eraser stroke. |
| App.Editor.AddElement | src/App.tsx:120-142 | The list becomes AddElement of the old list, the selection is unchanged, and the result is committed. |
| App.Editor.UpdateElement | src/App.tsx:156-158 | The list becomes UpdateElement of the old list. No commit. |
| App.Editor.DeleteSelected | src/App.tsx:160-164 | Selected elements are removed, the selection is emptied, and the remaining list is committed, so the current entry matches the screen. |
| App.EraseThenUndoAsWritten | src/App.tsx:83-84 | As the source behaves: one eraser stroke and then undo return to the entry that was current before the stroke, yet leave the drawing layer blank. |
| App.EraseThenUndo | src/App.tsx:83-84 | Corrected: the same stroke and undo leave the drawing layer holding the raster of the entry undo returns to. |
| App.Editor.DeleteSelectedAsWritten | src/App.tsx:160-164 | As the source behaves: the commit records the list from before the deletion, so whenever something was deleted the current entry differs from the screen. |
| App.Editor.DeleteElement | src/App.tsx:166-170 | The element is removed from the list and its id from the selection, then the result is committed. |
| App.Editor.ToggleElementVisibility | src/App.tsx:172-177 | The visibility is toggled, then the result is committed. |
| App.Editor.MoveLayer | src/App.tsx:179-194 | The list becomes the reordered list, then the result is committed. |
| App.Editor.SelectElement | src/App.tsx:196-199 | The selection becomes exactly [id] and the flags follow. No commit. |
| App.Editor.ClearSelection | src/App.tsx:201-204 | The selection is empty and no flag is set. No commit. |
| App.Editor.UseSidebar | src/App.tsx:576 | The tools become the sidebar's merge, stay consistent, and nothing else changes. |
| App.Editor.UseToolbar | src/App.tsx:615 | The tools become the toolbar's merge, stay consistent, and nothing else changes. |
| App.Editor.HandleKeyDown | src/App.tsx:492-523 | Performs exactly the command KeyAction decides, with the guarantees of the corrected Undo and Redo and of DeleteSelected: undo or redo restores the list and raster of the new current entry, and resets the mode to painting over, or changes nothing at an end of the history. Delete removes the selected elements, clears the selection and commits, leaving the raster alone. No command changes nothing. The tools never change. |
| App.Editor.CanvasPointerDown | src/components/Canvas.tsx:113-116 | The surface takes exactly the step of StartDrawing: nothing when drawing is off, a pending line start, a committed segment from the pending start, or the start of a freehand path. Commits the list and the new raster iff the tap completes a line. The scene and tools are unchanged. |
| App.Editor.CanvasPointerUp | src/components/Canvas.tsx:152-160 | Commits the list and raster iff drawing is on outside line mode. In that case the freehand stroke ends with its segments kept; otherwise the surface is unchanged. The scene and tools are unchanged. |
| App.Editor.CanvasClick | src/components/Canvas.tsx:163-172 | Clears the selection and flags exactly under the surface's condition. Never commits, and changes neither the tools nor the surface. |
| App.Editor.ElementPointerDown | src/components/CanvasElement.tsx:49-51 | Pressing an unselected element selects exactly it. Pressing a selected element leaves the selection alone. The controller starts the chosen gesture from the pointer and the element's geometry, as PointerDown states. No commit, and the tools are unchanged. |
| App.Editor.ElementPointerMove | src/components/CanvasElement.tsx:101-124 | The element receives the drag, resize or rotate patch of the active gesture, in that priority. When idle, nothing changes. Selection, history and tools are unchanged. |
| App.Editor.ElementPointerUp | src/components/CanvasElement.tsx:128-131 | Commits iff a gesture was in progress, and leaves the controller idle. Elements, selection and tools are unchanged. |

## Findings

| source | as written | input that shows it | evidently intended | confidence | as-written member | corrected member |
|---|---|---|---|---|---|---|
| src/App.tsx:160-164 | `saveState()` runs in the same event as `setElements(...filter...)` and reads the `elements` captured before the update, so the new history entry holds the pre-deletion list. The same happens after `deleteElement`, `toggleElementVisibility` and `moveLayer`, in the deferred commit of `addElement`, and in the gesture commit of `handlePointerUp`. | One element `a`, selected, then Delete: the screen shows no elements, but the current entry holds `[a]`. Undo followed by redo brings `a` back. | The commit records the list the operation leaves, so undo/redo moves between the states that were on screen. | high (not executed) | App.Editor.DeleteSelectedAsWritten | App.Editor.DeleteSelected |
| src/App.tsx:83-84 | `undo` clears the drawing canvas and calls `drawImage` under the context's current `globalCompositeOperation`. Only the stroke handlers set that mode (`src/components/Canvas.tsx:110`, `src/components/Canvas.tsx:127`), and nothing resets it, so after an eraser stroke it is still `destination-out`. Drawing the saved image that way onto a cleared, transparent canvas leaves it transparent. | Draw a stroke, turn the eraser on, erase once, press Ctrl+Z: the history returns to the entry holding the first stroke, but the drawing layer is blank. | The saved raster reappears: the mode is set to `source-over` before `drawImage`. | high (not executed) | App.Editor.UndoAsWritten | App.Editor.Undo |
| src/App.tsx:107-108 | `redo` redraws the saved image the same way, under the mode the last stroke left behind, and undo does not reset it. | Draw a stroke, erase once, press Ctrl+Z and then Ctrl+Y: the entry redone to holds the partly erased drawing, but the drawing layer is blank. | The redone raster reappears: the mode is set to `source-over` before `drawImage`. | high (not executed) | App.Editor.RedoAsWritten | App.Editor.Redo |

## Left out

- Export (`saveArtwork`), image upload (`handleImageUpload`) and the signature prompt (`addSignature`) are left out. They are file, network and dialog I/O.
- The 100 ms retry of `saveState` while the drawing canvas is not mounted is not modelled. `Editor.SaveState` records nothing in that case.
- The deferral of `addElement`'s commit by `setTimeout` is not modelled. The commit follows the operation immediately. The mount-time `saveState` (`src/App.tsx:486-488`) is performed by `App.Editor.constructor` when the drawing canvas is given; its delay is not modelled either.
- App.Editor.AddElement, App.Editor.DeleteElement, App.Editor.ToggleElementVisibility, App.Editor.MoveLayer, App.Editor.ElementPointerUp and App.Editor.HandleKeyDown (its delete key calls `deleteSelected`) commit the list the operation leaves. The source commits the list captured before the operation (see Findings). Only `deleteSelected` is also modelled as written.
- Operations are atomic and sequential. React's batching of state updates and the identity of handler closures are not modelled.
- The element id `element-${Date.now()}` reads the clock. It is a parameter of `AddElement`, and nothing ensures that ids are unique. The layer-button lemmas assume distinct ids.
- Pointer positions (`getEventPosition`, `getBoundingClientRect`) and the angle around an element's centre (`getAngle`, `atan2`) are inputs. A missing box is modelled by a missing angle.
- JavaScript numbers are exact reals (coordinates, sizes, angles) or integers (asset index, brush size). Floating-point rounding is not modelled.
- Pixel compositing is not modelled beyond the two modes. The raster is the sequence of segments stroked onto it. Redrawing a saved raster is modelled for both modes (`Canvas.Redrawn`). A freehand `stroke()` repaints the whole current path in one style, which the model records as the newly added piece only. The colour and width are kept as given, with no CSS colour parsing.
- The `if (!ctx) return` guards are not modelled: a mounted canvas always has a 2D context. The `image.onload` decode on undo/redo completes at once.
- Snapshots carry an optional raster, as `prevState.drawingData` is tested in the source. The editor always records one, so the blank-raster branch is reachable only in principle.
- Letter case is mapped for ASCII letters only, in `toLowerCase` and `toUpperCase`.
- Layers.Prefix: strings are sequences of Unicode characters, whereas JavaScript's `substring` counts UTF-16 code units. Text with characters outside the Basic Multilingual Plane is cut at a different place.
- Layers.LayerName: for the same reason, a signature source with characters outside the Basic Multilingual Plane in its first 15 UTF-16 units is shortened differently.
- App.Editor.ElementPointerDown: accepts any element index at any time. In the source the element layer ignores pointer events while drawing is on (`src/components/Canvas.tsx:197`), and hidden elements are not rendered, so they cannot be pressed (`src/components/Canvas.tsx:201`).
- App.Editor.ElementPointerMove: likewise accepts any element while drawing is on or the element is hidden, which the rendered page does not allow.
- `handleAppClick` (`src/App.tsx:533-549`), the sidebar open/close state, `MobileHeader`, and all JSX and CSS are not part of this model. The coordinate read-out in the layers panel is also not part of this model.
