# Vector overlay of the paint editor

This project models the vector-overlay engine of the browser image editor in
`docs/paint/paint.js`. That engine is the `ImageEditor` object, and the model
covers the following parts:

- Shapes, text and pen strokes are kept as a list of element records drawn
  bottom to top.
- Hit testing follows the element kind:
  - rectangles and circles use their box;
  - lines and arrows use the distance to their segment;
  - text uses its measured box above the baseline;
  - pen strokes use their path.
- The topmost hit element is selected.
- The selection can be dragged, resized by its single handle, and restyled.
- A linear undo history stores copies of the element list.
- A pointer state machine turns mouse presses, moves and releases into
  these operations according to the current tool.

The model is in Dafny. Each file is one module:

| file | module | contents |
|---|---|---|
| `wrappers.dfy` | `Wrappers` | `Option` |
| `geometry.dfy` | `Geometry` | `pointToLineDistance` as squared distances to the clamped projection, and the facts about it |
| `text_input.dfy` | `TextInput` | `String.prototype.trim`, as applied to the text dialog's input |
| `elements.dfy` | `Elements` | the element records as values: creation, hit test, resize handle, resize, drag, restyle, the topmost-hit search |
| `refs.dfy` | `Refs` | the editor's object references (`selectedElement`, `editingElement`) and how they follow a splice or a list replacement |
| `editor.dfy` | `Editor` | the `ImageEditor` class: its fields, the history, the edits, and the three mouse handlers; plus a worked drag/delete/undo session |

Some conventions used throughout the model:

- **Coordinates** are `real`.
- **Distances** are compared squared: "distance ≤ tol" is `tol >= 0 && distSq <= tol * tol`. Square roots are thereby avoided.
- **Text width** (`ctx.measureText(text).width` at a font size) is the editor's constant `measure`. It is a function value that every statement about text holds for.
- **Element ids**, which the source draws from `Date.now() + Math.random()`, are parameters.
- **`confirm()`** in `clear`, and the value of the text dialog in `addText`, are parameters too.
- **Element records.** A JavaScript element record is a `Figure` (the twelve fields `addElement` writes) or a `Stroke` (the six fields `addPenElement` writes).
- **Object references.** A JavaScript object reference to an element is a `Ref`. A `Ref` is one of:
  - null;
  - an index into the live list;
  - a detached copy of an object that has left the list, for example after a splice or an undo.
- **The editor's invariant** (`Valid`): the history cursor names an entry, both references are in range, and no rectangle or circle in the live list or in any history entry has a negative width or height. Every method keeps it: creation spans the two anchors, a resize keeps each box extent at least 5, and drags and restyles leave the extents alone.

## Model

| member | source | states |
|---|---|---|
| Geometry.ClosestPoint | docs/paint/paint.js:579-600 | the foot point lies on the segment (a parameter in [0, 1]); for a zero-length segment it is the start point |
| Geometry.DegenerateProjection | docs/paint/paint.js:587-588 | when the segment has length zero the projection parameter stays at -1 |
| Geometry.ClosestIsNearest | docs/paint/paint.js:579-605 | the clamped projection is no farther from the point than any point of the segment |
| Geometry.SegmentDistSq | docs/paint/paint.js:579-605 | the squared distance is non-negative, attained on the segment, a lower bound for every segment point, and at most the distance to either end |
| Geometry.WithinDistanceMeaning | docs/paint/paint.js:579-605 | "pointToLineDistance ≤ tol" holds exactly when tol ≥ 0 and some point of the segment lies within tol of the point |
| Geometry.ClosestPointSymmetric | docs/paint/paint.js:579-605 | exchanging the two ends gives the same foot point and the same distance |
| Geometry.ProjectionFromOtherEnd | docs/paint/paint.js:587-588 | for a proper segment, projecting from the other end gives 1 minus the parameter |
| Geometry.ClosestPointShift | docs/paint/paint.js:579-605 | translating the point and both ends translates the foot point and keeps the distance |
| TextInput.Trim | docs/paint/paint.js:521 | the result is an infix of the input; everything cut from either side is white space, and the result neither starts nor ends with white space |
| TextInput.TrimEmpty | docs/paint/paint.js:521-522 | the trimmed text is empty exactly when the input is all white space, so no element is added for it |
| TextInput.TrimIdempotent | docs/paint/paint.js:521 | trimming twice is trimming once |
| Elements.NewFigure | docs/paint/paint.js:547-572 | one figure in the given style; rectangles and circles span both anchors with non-negative extents; lines and arrows run from the first anchor to the second; text sits at the click point |
| Elements.NewFigureAsWritten | docs/paint/paint.js:547-566 | the record the source literally builds: a text keeps y1 but takes x = min(x1, x2) |
| Elements.TextOriginAsWritten | docs/paint/paint.js:548-566 | the source's text record clicked at (120, 40) has x = 0 |
| Elements.CreationExample | docs/paint/paint.js:547-572 | a rectangle dragged up-left normalises to (10, 10, 40, 30); a line keeps (50, 40) and the signed deltas (-40, -30) |
| Elements.NewStroke | docs/paint/paint.js:607-615 | one stroke with a copy of the path, in the current colours and stroke width |
| Elements.LineHitMeaning | docs/paint/paint.js:661-700 | a line or arrow is hit exactly when some point of its segment lies within 5 of the pointer |
| Elements.BoxHitBetweenAnchors | docs/paint/paint.js:547-572 | a created rectangle or circle is hit exactly between its two anchors, whichever way it was drawn |
| Elements.LineHitReversible | docs/paint/paint.js:547-572 | a line drawn from A to B and one drawn from B to A are hit at the same points |
| Elements.HandleAnchor | docs/paint/paint.js:1227-1241 | the handle is at (x + textWidth, y) for text and at (x + width, y + height) for the other kinds; a pen stroke has none |
| Elements.HandleExample | docs/paint/paint.js:1243-1247 | the handle of a 100 by 50 rectangle at the origin catches (100, 50) but not its centre |
| Elements.Round | docs/paint/paint.js:1267 | `Math.round`: the nearest integer, halves rounded up |
| Elements.ClampFontSize | docs/paint/paint.js:1266 | the size is clamped into [8, 200]: an in-range size is unchanged, a larger one becomes 200 and a smaller one 8 |
| Elements.ScaledFontSize | docs/paint/paint.js:1260-1267 | with a non-zero measured width, the new size is the old size times newWidth / measured width: rounded to the nearest integer when that lies in [8, 200], otherwise 200 above and 8 below; with a zero width the infinite scale gives 200 for a positive size and 8 for a negative one |
| Elements.Resized | docs/paint/paint.js:1252-1283 | a box's far corner goes to the pointer, each extent becoming exactly 5 when the pointer is less than 5 past the origin; a line or arrow ends at the pointer; a text dragged more than 10 right of its origin takes the `ScaledFontSize` for the new width, and is otherwise unchanged; only text changes its font size; the origin, every other field and pen strokes never change, and the result never has a negative box extent |
| Elements.HandleFollowsPointer | docs/paint/paint.js:1252-1283 | after resizing a line, an arrow, or a box beyond its minimum, the handle is under the pointer |
| Elements.Moved | docs/paint/paint.js:433-434 | a drag sets a figure's origin; a pen stroke, which has no origin, stays where it is |
| Elements.DragTranslates | docs/paint/paint.js:433-434 | a box grabbed at one point and dragged to another moves by exactly the pointer's displacement, keeps its size, and is still under the pointer |
| Elements.SegmentDragTranslates | docs/paint/paint.js:433-434 | a dragged line or arrow keeps its deltas and is still under the pointer |
| Elements.WithArrowSize | docs/paint/paint.js:1090-1096 | only an arrow takes a new head size; any other element is unchanged |
| Elements.RestyleKeepsHits | docs/paint/paint.js:1039-1096 | recolouring, restroking or resizing an arrow head never changes which points hit the element |
| Elements.Topmost | docs/paint/paint.js:622-632 | the highest index whose element is hit, with nothing above it hit; none exactly when no element is hit |
| Elements.TopmostWins | docs/paint/paint.js:622-632 | of two overlapping hit elements the later one wins |
| Refs.AfterRemoval | docs/paint/paint.js:1163-1166 | after a splice at k a reference still names the same object: an index below k stays, index k becomes the detached removed element, and a later index shifts down by one |
| Refs.Detach | docs/paint/paint.js:1111-1113 | after the list is replaced a reference still names the same object, which is no longer in the list |
| Refs.Store | docs/paint/paint.js:1039-1096 | writing through a reference updates exactly the object it names: a listed reference keeps its index and that entry becomes the new value, a detached one leaves the list alone, and no other entry changes |
| Editor.ShapeKind | docs/paint/paint.js:482-483 | exactly the rectangle, circle, line and arrow tools create a figure on release |
| Editor.Pushed | docs/paint/paint.js:1098-1106 | the history after a save keeps the entries up to the cursor and ends with the new entry |
| Editor.UndoThenCommit | docs/paint/paint.js:1098-1117 | an edit after an undo from the newest entry replaces the undone entry and keeps the length |
| Editor.ImageEditor.constructor | docs/paint/paint.js:2-31 | the defaults, with one saved empty scene and the cursor on it |
| Editor.ImageEditor.SaveState | docs/paint/paint.js:1098-1106 | the history is cut after the cursor and a copy of the scene is appended; the cursor then names that last entry |
| Editor.ImageEditor.Undo | docs/paint/paint.js:1108-1117 | at entry 0 nothing changes; otherwise the cursor steps back one, the scene becomes that entry, the selection is cleared, and the history is untouched |
| Editor.ImageEditor.Clear | docs/paint/paint.js:1119-1126 | when confirmed: no elements, no selection, and one new history entry; otherwise nothing changes |
| Editor.ImageEditor.RemoveSelected | docs/paint/paint.js:1163-1168 | the selected element leaves the list, the element being edited keeps naming the same object, the selection is cleared and one entry is saved |
| Editor.ImageEditor.DeleteSelectedElement | docs/paint/paint.js:1161-1171 | a selected element in the list is spliced out, the selection is cleared and one entry is saved; otherwise nothing changes |
| Editor.ImageEditor.AddElement | docs/paint/paint.js:547-577 | exactly one figure is appended on top in the current style, and the new list is saved |
| Editor.ImageEditor.AddPenElement | docs/paint/paint.js:607-620 | exactly one stroke with the path is appended on top, and the new list is saved |
| Editor.ImageEditor.IsPointInElement | docs/paint/paint.js:642-703 | the loop's answer is the per-kind hit test; a pen stroke uses the editor's current stroke width plus 5 |
| Editor.ImageEditor.FindTopmost | docs/paint/paint.js:624-632 | the scan from the last element down stops at the first hit, so it answers exactly `Topmost`: the highest hit index, or none when nothing is hit |
| Editor.ImageEditor.SelectElement | docs/paint/paint.js:622-640 | the topmost hit element is selected, or none; a selected figure records the grab offset, otherwise the offset stays; on a hit the editor picks up the element's colour, and its secondary colour, stroke width and arrow size when set (`PickedStyle`); on a miss the settings stay; the answer says whether anything was selected |
| Editor.ImageEditor.UpdateColorPickerFromSelectedElement | docs/paint/paint.js:1047-1072 | the selection's colour becomes the current colour; its secondary colour, stroke width and arrow size only when set (`PickedStyle`); without a selection the settings stay |
| Editor.PickUpDrawnStyle | docs/paint/paint.js:1047-1072 | selecting a figure drawn in a style whose settings are all set gives that style back, whatever the editor's settings were |
| Editor.ImageEditor.CheckResizeHandle | docs/paint/paint.js:1219-1250 | some kind exactly when there is a selection and the point lies in the closed 16 by 16 square around its handle, and then the selection's kind |
| Editor.ImageEditor.ResizeElement | docs/paint/paint.js:1252-1283 | the selected object becomes its resized form and no other element changes |
| Editor.ImageEditor.UpdateSelectedElementColor | docs/paint/paint.js:1039-1045 | the selected object takes the current colour and one entry is saved; without a selection nothing changes |
| Editor.ImageEditor.UpdateSelectedElementSecondaryColor | docs/paint/paint.js:1074-1080 | the selected object takes the current secondary colour and one entry is saved |
| Editor.ImageEditor.UpdateSelectedElementStrokeWidth | docs/paint/paint.js:1082-1088 | the selected object takes the current stroke width and one entry is saved |
| Editor.ImageEditor.UpdateSelectedElementArrowSize | docs/paint/paint.js:1090-1096 | only a selected arrow takes the current head size, and only then is an entry saved |
| Editor.ImageEditor.EditTextElement | docs/paint/paint.js:536-545 | the dialog remembers the element's origin and the element to replace |
| Editor.ImageEditor.HideTextModal | docs/paint/paint.js:512-518 | the dialog forgets its position and the element it was editing |
| Editor.ImageEditor.PlaceText | docs/paint/paint.js:524-531 | the edited element, when still listed, is replaced by the new text element on top, the selection still naming the same object, and one history entry is pushed |
| Editor.ImageEditor.AddText | docs/paint/paint.js:520-534 | non-empty trimmed text with a position becomes one text element on top; an edited element still in the list is spliced out first; the dialog closes either way |
| Editor.ImageEditor.HandleMouseDown | docs/paint/paint.js:367-421 | records the start; text opens the dialog; select starts a resize on the handle, or selects, picks up the element's settings and starts a drag on a hit; pen starts a path at the point and sets the last point; other tools start drawing; the grab offset, the settings and the last point stay wherever the press does not set them |
| Editor.ImageEditor.HandleMouseMove | docs/paint/paint.js:423-473 | resizes or drags the selection, or extends the pen path; no other element and no other state changes |
| Editor.ImageEditor.HandleMouseUp | docs/paint/paint.js:475-503 | ignored unless a gesture is in progress; a shape tool adds its figure, the pen adds a path of two or more points, the select tool saves the finished move; every gesture flag is then reset |
| Editor.DragDeleteUndoSession | docs/paint/paint.js:367-503 | draw a red square, drag it by (20, 20), delete it: the list goes square, moved square, empty; two undos give back the moved square, then the original |

## Left out

- The DOM and event wiring are not modelled. This covers listeners, modals, cursors, the context menu, the colour pickers' inputs and the icon refresh. It is browser glue.
- Rendering is not modelled. This covers `redraw`, `drawElement`, the highlight, the handle, the previews and the canvas strokes in the pen branches. These are foreign canvas calls.
  - `drawArrow` is floating-point trigonometry.
- Image loading, paste, crop and export are not modelled. They rely on `FileReader`, `Image`, `toDataURL` and asynchronous callbacks.
  - `HandleMouseUp` does nothing with the crop tool except end the gesture. The background image is a `Raster` handle that only the history copies.
- Touch-to-mouse conversion, the long-press timer, dark mode and the cookie helpers are not modelled. They are events, timers and preference storage.
- Client-to-canvas scaling in the mouse handlers is left out. The handlers take points already in canvas coordinates.
- `setTool`'s button and cursor updates are left out. `SetTool` only sets the tool.
- IEEE floating point, including NaN and infinities, is not modelled. Coordinates are exact reals, with three consequences:
  - The source stores `NaN` on a dragged pen record, because the record has no `x`/`y`. The model keeps the stroke unchanged.
  - The source's `NaN` handle position for a pen record never matches. The model says a stroke has no handle.
- Editor.ImageEditor.PlaceText, Editor.ImageEditor.AddElement and Editor.ImageEditor.AddText build text with the corrected `Elements.NewFigure`, so a new text element's origin is the click point. The source stores `x = min(click x, 0)` instead (see the Findings row); `Elements.NewFigureAsWritten` models that behaviour separately.
- Elements.ScaledFontSize: when the measured width and the font size are both 0, the source computes `0 * Infinity = NaN` and stores it. The model keeps the old size, because it has no NaN.
- The JSON deep copies in `saveState` and `undo` are not modelled as serialisation. They are value semantics on immutable sequences, so the history can never alias the live list.
- The grab offset lives on the editor in the model. The source stores it as `offsetX`/`offsetY` properties on the selected record.
  - Only the drag branch reads them, and always after `selectElement` wrote them for the same record.
  - The model's element records (and the history's copies) therefore carry no offsets.
- Two behaviours follow the code as written:
  - Degenerate shapes are not skipped. A zero-size rectangle or line is still created on release.
  - Editing a text creates a new element with a new id at the top of the list. The edited element is not updated in place.

## Findings

| source | as written | input that shows it | evidently intended | confidence | as-written member | corrected member |
|---|---|---|---|---|---|---|
| docs/paint/paint.js:547-566 | a text element takes `x = Math.min(x1, x2)`, and `addText` passes `x2 = 0`, so `x = min(click x, 0)` | a text added at (120, 40) is stored with x = 0; rendering and hit testing then place it at the left edge | a text element's origin is the click point (x1, y1), as its `y = y1` and the baseline comment say | high, not executed | Elements.TextOriginAsWritten | Elements.NewFigure |
