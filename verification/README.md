# ShapeDrawer editor core, modelled in Dafny

ShapeDrawer is a small browser canvas editor. The user picks a tool (rectangle, circle, triangle) and clicks on the canvas to place a shape. A Select mode picks the topmost shape under the cursor and brings it to the top. A Delete mode removes a shape. A Clear button empties the canvas. All of this lives in `scripts/editor.js`.

This project models the editor's state machine and its shapes as immutable values and pure functions, and proves what each event does to the state.

- `shapes.dfy`
  - `Optional`: `Option`, which stands in for the JavaScript `null`.
  - `Shapes`: the `Shape` record and its constructor defaults. Also the outline that `createShapePath` derives from type, position and size (`Rect`, `Arc`, `Tri`, `EmptyPath` for an unrecognised non-empty type, `NoPath` for the empty type), the shape setters, and `offsetMouseToCanvas`.
- `hittest.dfy` (`HitTest`): the scan of `selectShape`, from the end of the list to its front. It is given twice: as a recursive function (`Topmost`) and as the source's loop (`ScanTopmost`), and the two are proved to agree. The file also has the splice-and-re-append promotion (`Promote`). Point containment (`isPointInPath`) belongs to the browser, so it is a function-valued parameter `contains: (Outline, real, real) -> bool` and has no definition here.
- `editor.dfy` (`Editors`): the editor state (`shapes`, `mode`, `newShapeType`, `selected`) and one step function per handler: `setNewShape`, `toggleSelect`, `toggleDelete`, `clearCanvas`, `createShape`, `selectShape`, `deleteShape` and `processMouseClick`. There is one lemma per click branch. The file also has the corrected selection click described under Findings.
- `session.dfy` (`Session`): the events the page wires to these handlers and a run over a sequence of them. It proves the invariant that every reachable state keeps. It also replays two concrete sessions: draw/select/delete of one rectangle, and two overlapping circles.

The step functions follow the code as written:
- A selection click that misses keeps any earlier selection.
- `deleteShape` pops the last shape whenever a selection exists.
- `clearCanvas` does not reset the selection.

A circle's outline is an arc whose radius is half the width. An arc with a negative radius throws an `IndexSizeError`. The exception leaves the shape constructor, so a Draw click with a negative circle width appends nothing and keeps the selection. The model returns no outline and no shape in that case, and the click leaves the state unchanged.

Coordinates, widths and heights are `real`. Division by two is therefore exact, where the browser uses floating point.

## Model

| member | source | states |
|---|---|---|
| Shapes.ShapePath | scripts/editor.js:176-191 | Building the outline throws exactly for a circle of negative width. Otherwise: the empty type gives no path, and each recognised type gives its own outline kind. A rectangle is centred on (x, y) and spans width by height. A circle is centred on (x, y), its diameter is the width, its radius is not negative, and the height plays no part. A triangle is isosceles, with its apex at (x, y - h/2) and a horizontal base of length w at y + h/2. |
| Shapes.NewShape | scripts/editor.js:32-49 | Construction fails exactly when building the outline throws. Otherwise the constructed shape keeps the given type, colour, position and width. A missing height becomes the width. The stored outline is the one its type, position and size determine. |
| Shapes.DefaultShape | scripts/editor.js:32 | With only a type given, the shape is black, 10 by 10 and at the origin, and it carries its derived outline. |
| Shapes.PlacementRoundTrip | scripts/editor.js:176-191 | Reading the centre and size back from a rectangle or triangle outline gives the placement it was built from. A circle of non-negative width gives the width in place of the height. Other types give no placement. |
| Shapes.SetColor | scripts/editor.js:56-58 | Only the colour changes, and a shape whose outline matched its geometry still matches it. |
| Shapes.SetLocation | scripts/editor.js:51-54 | The position changes. Every other field stays the same, including the stored outline. |
| Shapes.SetLocationLeavesStaleOutline | scripts/editor.js:49-54 | A well-formed default rectangle that is moved to (100, 100) keeps an outline that no longer matches its position. |
| Shapes.MoveTo | scripts/editor.js:49-54 | A move that rebuilds the outline throws exactly when construction would, so it never throws for a well-formed shape. Otherwise it leaves a well-formed shape whose outline is centred on the new position with the old size. |
| Shapes.OffsetMouseToCanvas | scripts/editor.js:193-200 | Adding the canvas's offset (`offsetLeft`, `offsetTop`) back to the canvas point gives the page point. |
| Shapes.OffsetKeepsDisplacement | scripts/editor.js:193-200 | The mapping is a translation: the displacement between two clicks is the same on the page and on the canvas. |
| HitTest.Topmost | scripts/editor.js:107-117 | If a shape is found, it contains the point and no shape at a higher index does. Nothing is found exactly when no shape contains the point. |
| HitTest.TopmostIsHighestHit | scripts/editor.js:107-116 | Any index whose shape contains the point, with no containing shape above it, is the one the scan returns. |
| HitTest.ScanTopmost | scripts/editor.js:107-117 | The downward loop stops at the highest index whose shape contains the point, or reports that no shape does. It agrees with `Topmost` in both cases. |
| HitTest.Without | scripts/editor.js:111 | Splicing out index i shortens the list by one. Elements before i stay in place, later ones shift down by one, and the removed element is the only one missing from the multiset. |
| HitTest.Promote | scripts/editor.js:110-112 | Splice-and-re-append keeps the length and the multiset. The promoted shape is last, and everything before it is the list with that shape removed. |
| HitTest.PromoteKeepsOrder | scripts/editor.js:110-112 | Any two other shapes keep their relative order after a promotion, and both stay below the promoted one. |
| HitTest.PromoteLastIsIdentity | scripts/editor.js:110-112 | Promoting the shape that is already on top leaves the list unchanged. |
| Editors.SetNewShape | scripts/editor.js:83-85 | The pending tool becomes the given type and nothing else changes. |
| Editors.ToggleSelect | scripts/editor.js:132-138 | The new mode is Select exactly when the old mode was not Select, and Draw otherwise. Nothing else changes. |
| Editors.ToggleDelete | scripts/editor.js:140-146 | The new mode is Delete exactly when the old mode was not Delete, and Draw otherwise. Nothing else changes. |
| Editors.ToggleSelectTwice | scripts/editor.js:132-138 | Toggling Select twice returns to the starting mode, except from Delete, which ends in Draw. In particular, Draw goes to Draw. |
| Editors.LastToggleWins | scripts/editor.js:132-146 | Select then Delete always ends in Delete. Delete then Select always ends in Select. |
| Editors.ClearCanvas | scripts/editor.js:156-159 | The shape list becomes empty whatever it held. The mode, the pending tool and the selection are kept. |
| Editors.CreateShape | scripts/editor.js:120-130 | With no pending tool, or when the constructor throws for a negative circle width, the state is unchanged. Otherwise exactly one shape is appended, built from the pending type, the click point and the tool inputs, with the height the control hands over as written (a blank control gives 0). The earlier shapes stay as an unchanged prefix, the selection becomes none, and the mode and tool are kept. |
| Editors.HeightAsWritten | scripts/editor.js:90-99 | As written, the click always hands the constructor a height: a blank control gives 0 and a number gives itself. |
| Editors.BlankHeightDrawsFlat | scripts/editor.js:182-188 | As written, a rectangle or triangle drawn with a blank height control has height 0, and its outline reads back with zero height. |
| Editors.HeightIntended | scripts/editor.js:39-41 | With the intended reading, a blank control is a missing height, and a number gives itself. |
| Editors.BlankHeightDrawsProportioned | scripts/editor.js:39-41 | With the intended reading, a rectangle or triangle drawn with a blank height control is as tall as it is wide. |
| Editors.SelectShape | scripts/editor.js:104-118 | A miss leaves the state unchanged, so any earlier selection stays. After a hit, the selection is the last shape, and that shape contains the point. The list keeps its length and multiset, and the mode and tool are kept. |
| Editors.SelectHit | scripts/editor.js:107-116 | After a hit, the largest index i whose shape contains the point is promoted. The list becomes `shapes[..i] + shapes[i+1..] + [shapes[i]]` and the selection becomes `shapes[i]`. |
| Editors.DeleteShape | scripts/editor.js:148-154 | The selection becomes none. With no selection the state is unchanged. With a selection the last shape is popped, and popping an empty list leaves it empty. |
| Editors.ProcessMouseClick | scripts/editor.js:87-102 | A click never changes the mode or the pending tool. It runs exactly the handler of the current mode on the canvas-mapped point: create in Draw, select in Select, and select then delete in Delete. |
| Editors.DrawClick | scripts/editor.js:120-128 | A Draw click with no tool, or with a negative circle width, changes nothing. Otherwise one well-formed shape of the pending type is appended at the canvas point of the click, with height 0 for a blank height control and the control's number otherwise. The earlier shapes are an unchanged prefix, and the selection is none. |
| Editors.SelectClickMiss | scripts/editor.js:104-118 | A Select click inside no shape leaves the whole state unchanged, including an earlier selection. |
| Editors.DeleteClickHit | scripts/editor.js:95-97 | A Delete click that hits removes exactly the topmost shape under the point. The length drops by one, the other shapes keep their order, and the selection becomes none. |
| Editors.DeleteClickMissUnselected | scripts/editor.js:148-153 | A Delete click that misses, with no earlier selection, leaves the state unchanged. |
| Editors.DeleteClickEmptyCanvas | scripts/editor.js:148-153 | A Delete click on an empty canvas leaves it empty, even with a stale selection left by `clearCanvas`, and the selection becomes none. |
| Editors.DeleteClickMissSelected | scripts/editor.js:95-97 | As written, a Delete click that misses still pops the top shape when an earlier selection survives. |
| Editors.StaleSelectionDeletesOnMiss | scripts/editor.js:95-97 | Take a one-shape list whose shape is still selected. A Delete click at (500, 500) that hits nothing empties the list. |
| Editors.SelectShapeExclusive | scripts/editor.js:104-118 | Corrected selection: the result has a selection exactly when some shape contains the point. That selection is the last shape and contains the point. Without a hit the list is unchanged. |
| Editors.ProcessMouseClickExclusive | scripts/editor.js:87-102 | With the corrected selection, a Draw click is the same as written. A Select or Delete click that misses leaves the list unchanged with no selection. A Delete click removes at most one shape. |
| Editors.DeleteClickExclusive | scripts/editor.js:95-97 | With the corrected selection, a Delete click removes exactly the topmost hit, and a miss removes nothing. |
| Editors.StaleSelectionKeptOnMissExclusive | scripts/editor.js:95-97 | With the corrected selection, the run that shows the first finding keeps its shape. |
| Session.Step | scripts/editor.js:23-28 | Only clicks and Clear change the list or the selection. Only a tool choice changes the pending tool. Only the two toggles change the mode. |
| Session.InitialConsistent | scripts/editor.js:68-72 | The initial editor satisfies the reachable-state invariant. |
| Session.StepConsistent | scripts/editor.js:104-159 | Every event preserves the invariant. Each shape carries its derived outline and has a non-empty type. A selection, whenever the list is non-empty, is the last shape. |
| Session.RunConsistent | scripts/editor.js:83-159 | Any sequence of events preserves the invariant. |
| Session.ExclusiveClickConsistent | scripts/editor.js:87-102 | The corrected click preserves the invariant. Outside Draw mode, its selection is none or the last shape. |
| Session.DeletePopsSelected | scripts/editor.js:148-151 | In a state that satisfies the invariant, the pop of `deleteShape` removes exactly the selected shape. |
| Session.ReachableShapesHaveOutlines | scripts/editor.js:120-128 | No reachable shape has the missing outline of the empty type, because a Draw click with no tool places nothing. |
| Session.RectangleScenario | scripts/editor.js:87-159 | Choose rectangle, then Draw-click at (50, 50) with size 20 by 20: the list is that one rectangle. Toggle Select and click there: it becomes selected and the order does not change. Toggle Delete and click there: the list is empty and nothing is selected. |
| Session.OverlappingCirclesScenario | scripts/editor.js:107-128 | Two circles drawn at the same point in two colours, then a Select click there: the later circle is selected and the order is unchanged. |

## Left out

- The `window.onload` wiring and button handlers (scripts/editor.js:9-29) are DOM plumbing. `Session.Event` stands for the events they deliver. A tool button passes its element id, which is the type string of `ChooseTool`.
- The `Editor` constructor's canvas lookup and the null it returns when the canvas is unsupported (scripts/editor.js:62-67) are DOM setup. The model starts from the initial state of lines 68-72.
- `resize` and `draw` (scripts/editor.js:75-81, 161-173), and the redraw after every click, delete and clear, only paint the canvas. Rendering reads the shape list and changes no state.
- `isPointInPath` and `Path2D` are browser geometry over floating-point paths. Containment is a parameter of the hit test, and the outline records only the geometry that `createShapePath` gives it.
- Reading `#colorPicker`, `#width` and `#height` as DOM strings is left out, along with JavaScript's string-to-number coercion in general. Width arrives as a number. The height arrives as `Editors.HeightField`, either a number or a blank control. A blank `#height` control is the exception that matters. Its value is the empty string, not `null`, so the constructor's "height defaults to width" rule never fires. The outline arithmetic reads `"" / 2` as 0 and `rect` coerces `""` to 0, so the shape is flat. In the model, `CreateShape` passes the control through `Editors.HeightAsWritten`, which gives `Some(0.0)` for a blank control. A click therefore never reaches the constructor's missing-height default; only `Shapes.DefaultShape` uses it. The third finding below records this.
- Other values the browser rejects are not modelled. Only the negative circle radius is, because it is the one that throws.
- The `console.log` and `console.error` calls are left out. So is the constructor's `null` return for a null type (scripts/editor.js:34-37): a type here is a string and cannot be null.
- The guard `shapes.length < 0` (scripts/editor.js:105) can never hold and has no counterpart.
- `selectedShape` is held as an `Option<Shape>` value rather than an object reference. The source only ever tests it against null, so reference identity plays no part.
- Floating point: all coordinates are exact reals.

## Findings

| source | as written | input that shows it | evidently intended | confidence | as-written member | corrected member |
|---|---|---|---|---|---|---|
| scripts/editor.js:104-118 | `selectShape` keeps the earlier selection when it misses, and `deleteShape` then pops the top shape because a selection exists | Select a shape, toggle Delete, then click on empty canvas: the shape is deleted | Delete mode runs `selectShape` and then `deleteShape` on the same click (scripts/editor.js:95-97). That order only makes sense if the deletion acts on this click's hit, so a Delete click that hits nothing should delete nothing | medium, not executed | Editors.StaleSelectionDeletesOnMiss | Editors.DeleteClickExclusive |
| scripts/editor.js:51-54 | `setLocation` moves the shape's `x` and `y` but keeps the outline built at the old position. Drawing and hit testing use that outline | A default rectangle at (0, 0) moved to (100, 100) is still drawn and hit-tested around (0, 0) | Moving a shape rebuilds its outline at the new position | low (the setter has no caller in this file), not executed | Shapes.SetLocationLeavesStaleOutline | Shapes.MoveTo |
| scripts/editor.js:89-99 | The click hands `height.value` to the constructor. For a blank control that is the empty string, not `null`, so the default at lines 39-41 never applies and the outline gets height 0 | Choose rectangle, leave `#height` blank, set width 20, and click: the rectangle is 20 wide and 0 tall. It has no area, so nothing is painted, and only a click exactly on its line can hit it | The constructor's `height === null` default (lines 39-41) exists for a missing height, and a blank height control is the UI's only way to give none, so a blank control should give a shape as tall as it is wide | low, not executed | Editors.BlankHeightDrawsFlat | Editors.BlankHeightDrawsProportioned |
