# MindMap scene and gesture controller in Dafny

This project models the core of the `MindMap` class of a browser mind-map
editor (`script.js`). A mind map is a list of **bubbles** and a list of
directed **connections** between them, drawn under a view transform: a pan
offset `translateX`/`translateY` and a `zoomLevel`. A `hasUnsavedChanges`
flag records edits. Cursor and key events drive a small gesture state
machine with these fields: panning, dragging, connecting, space held,
drag target, connection start, current line type, pan start, drag offset
and selected colour.

DOM elements become records with stable ids. A bubble is identified by its
`data-id`. Hit-testing (`e.target.closest(".bubble")`) becomes an
`Option<BubbleId>` carried by each event.

Modules, in dependency order:

- `Scene` (`scene.dfy`): bubbles, connections and their invariants. These
  are distinct bubble ids, no two connections joining the same unordered
  pair, and every connection ending at live bubbles. The module also holds
  the pure scene operations: add and remove a connection, delete a bubble,
  pin incoming colours, move, resize, and the label-edit rule.
- `Reach` (`reach.dfy`): reachability along start→end connections. It also
  holds the depth-first traversal behind `getChildBubbles`, a recursive
  method over a `visited` set that terminates on cycles.
- `Codec` (`codec.dfy`): `exportData` and `importData` at the level of
  records, including the export→import→export round trip.
- `Gestures` (`gestures.dfy`): the mouse-down priority order, key decoding,
  line-type toggling, the screen/canvas mapping, and the rule that commits a
  connecting gesture.
- `Drag` (`drag.dfy`): what one cursor move of a drag does to the bubbles.
- `Session` (`session.dfy`): the `MindMap` class. Its fields are updated in
  place by the event handlers. `Valid()` is the invariant every handler
  keeps: the scene is valid, the zoom can be divided by, the line type is
  solid or dashed, and each gesture flag is set exactly when its bubble is.
  It also keeps every bubble colour, the selected colour and every palette
  colour among the keys of the colour table `colors` (`script.js:41-99`),
  so the lookups `this.colors[...]` of `applyBubbleColor`
  (`script.js:818-819`), `createConnection` (`script.js:639`) and
  `changeBubbleColor` (`script.js:1199`) yield an entry. A name every
  JavaScript object inherits, such as `toString`, yields a value too and
  counts as found.

Behaviours of the code that the model reproduces:

- `changeBubbleColor` pins the colour on the connections that END at the
  bubble, and only when the bubble has outgoing connections. The comment
  at `script.js:1196` says the connections that start there; the model
  follows the code.
- `getChildBubbles(p)` includes `p` itself when `p` lies on a cycle.
- The set of bubbles that follow a space-drag is recomputed on every cursor
  move, not captured once when the drag starts. A dragged bubble on a cycle
  is therefore shifted twice per move and overshoots the cursor.
- A mouse-up while both a drag and a connecting gesture are under way ends
  only the drag. The connecting gesture stays pending until the next release.
- During import, a record whose pair duplicates an earlier connection is
  skipped by the duplicate check. Its colour still lands on whichever
  connection is last in the list (`script.js:950`).
- `importData` first clears the map and marks it changed
  (`script.js:917`). A bubble record whose colour has no entry in the
  colour table makes `applyBubbleColor` throw when it reads `.bg` of
  `undefined` (`script.js:927`). The import then stops: the bubbles before
  that record stay, no connection is created and the zoom and translation
  keep their reset values. For example, a document whose only bubble has
  colour "magenta" leaves an empty map with zoom 1 and translation 0.
- A press on a connection that is neither ctrl+right nor middle is not
  stopped (`script.js:721-727`). It reaches `handleMouseDown` on the canvas
  with no bubble under the cursor, so a left press without ctrl starts a
  pan, a ctrl+left press does nothing, a right press creates a bubble and
  any other button does nothing.

## Model

| member | source | states |
|---|---|---|
| Scene.AddConnection | script.js:610-617 | afterwards a and b are joined; the old list is a prefix; exactly one connection a→b with the given line type and no custom colour is appended iff no connection joined a and b in either direction; no duplicate pairs is kept |
| Scene.AddConnectionIdempotent | script.js:610-617 | creating the same pair again, in either orientation and with any line type, changes nothing |
| Scene.RemoveTouching | script.js:758-764 | the kept connections are exactly those with neither end at the bubble; nothing changes when none touches it |
| Scene.RemoveTouchingNoDuplicates | script.js:758-764 | filtering keeps the connection list free of duplicate pairs |
| Scene.RemoveTouchingAppend | script.js:758-764 | the filter distributes over concatenation, so survivors keep their original order |
| Scene.RemoveBubble | script.js:766 | the kept bubbles are exactly those with another id; the id set loses exactly that id |
| Scene.RemoveBubbleDistinct | script.js:766 | distinct ids stay distinct |
| Scene.RemoveBubbleAppend | script.js:766 | the filter distributes over concatenation, so the other bubbles keep their order |
| Scene.DeleteKeepsValid | script.js:757-769 | deleting a bubble and its connections keeps the scene valid, keeps every remaining colour in the colour table, and leaves no connection touching it |
| Scene.RemoveConnection | script.js:771-774 | the kept connections are exactly the others |
| Scene.RemoveConnectionNoDuplicates | script.js:771-774 | removing a connection keeps the list free of duplicate pairs |
| Scene.RemoveConnectionKeepsValid | script.js:771-777 | removing a connection keeps the scene valid |
| Scene.PinIncoming | script.js:1197-1208 | same length; only custom colours change; a colour changes only on a connection ending at the bubble, and every such connection carries the new colour |
| Scene.PinIncomingKeepsValid | script.js:1197-1208 | pinning the colour changes only the custom colour of the connections ending at the bubble, and keeps the scene valid |
| Scene.MoveByOneMore | script.js:330-334 | shifting one more bubble after a set equals shifting the enlarged set, so the forEach order is irrelevant |
| Scene.MoveByKeepsValid | script.js:415-426 | moving bubbles keeps the id set and scene validity, and keeps every colour in the colour table exactly when it was |
| Scene.SameColorsKeepFound | script.js:817-819 | two lists whose colours agree position by position pass the colour-table lookup together |
| Scene.RecolorKeepsFound | script.js:1190 | recolouring a bubble with a colour that has a table entry keeps every bubble colour in the table |
| Scene.Resized | script.js:299-313 | the new height is current+deltaY or the minimum 20, never below either; an unset height counts as 40; top moves so the vertical centre is preserved; nothing else changes |
| Scene.ResizeAt | script.js:299-311 | only the height and top of bubbles change, and only for the resized bubble, whose height is at least 20 and whose vertical centre stays put |
| Scene.CommitText | script.js:477 | the committed text is the input when it is non-empty, the original text otherwise; it is empty only when both are |
| Scene.EditRoundTrips | script.js:461-491 | opening then cancelling an edit restores the bubble; committing an empty input restores it; committing text sets exactly that text |
| Reach.ReachableIsEnd | script.js:1153-1156 | a reachable bubble is the end of some connection and so is a descendant |
| Reach.ReachStep | script.js:1153-1156 | following one more connection from the root or a reachable bubble reaches its end |
| Reach.Traverse | script.js:1149-1159 | the recursive traversal only grows the visited set; it keeps the children duplicate-free and reachable, and leaves every newly visited bubble closed under outgoing connections; it terminates because the unvisited part of a finite universe shrinks |
| Reach.ClosedHoldsReachable | script.js:1149-1161 | a visited set that holds the root and is closed under connections has every reachable bubble among the children |
| Reach.ChildBubbles | script.js:1145-1163 | the result is duplicate-free and holds exactly the bubbles reachable from the parent by one or more connections |
| Reach.DescendantsNonEmpty | script.js:1193-1195 | a bubble has descendants exactly when some connection leaves it |
| Reach.CycleIncludesStart | script.js:1145-1163 | on the cycle A→B→C→A, A is among its own descendants, as are B and C |
| Codec.OrSolid | script.js:904 | `lineType` or "solid": never empty; a non-empty line type is kept and an empty one becomes "solid" |
| Codec.ExportBubble | script.js:884-893 | the record keeps the bubble's id, and importing it gives the bubble back with no editor open |
| Codec.ExportConnection | script.js:901-906 | the record keeps the endpoints, has a non-empty line type that is the connection's own when that is non-empty, and has a colour exactly when the pinned colour is truthy, in which case it is that colour |
| Codec.ExportScene | script.js:883-914 | the export has one record per bubble and connection, in order, with the same ids and endpoints, plus the zoom and translation |
| Codec.PinLast | script.js:949-951 | the colour step keeps the length and every connection's endpoints; with a falsy colour or no connections it changes nothing; otherwise all but the last connection are unchanged and the last one differs only in carrying the colour |
| Codec.ImportStepDuplicate | script.js:940-951 | a record whose two known bubbles are already joined adds no connection; only its colour step acts, on the last connection |
| Codec.ImportStepFresh | script.js:940-951 | a record whose two known bubbles are not yet joined appends one connection start→end, with the record's line type or solid and its colour when truthy |
| Codec.SameEndpoints | script.js:949-951 | lists with the same endpoints position by position have the same pairs and duplicate-freedom |
| Codec.ImportStep | script.js:940-958 | a record with an unknown id changes nothing; otherwise the record's pair is joined afterwards; at most one connection is appended, exactly when the pair was not joined yet, and it runs from the record's start to its end; existing connections keep their endpoints |
| Codec.ImportConnections | script.js:939-960 | the connection loop yields at most one connection per record |
| Codec.ImportStepProps | script.js:940-958 | one import step keeps the list duplicate-free and within the known ids, keeps every pair, adds the record's pair when both ids are known, and adds no other pair |
| Codec.ImportConnectionsProps | script.js:939-960 | the imported connections are duplicate-free and join known ids only; every record with two known ids is covered; every connection comes from some record |
| Codec.StepCoversRecords | script.js:939-960 | records covered before a step stay covered after it |
| Codec.StepKeepsRecorded | script.js:939-960 | a step that adds only the last record's pair keeps every connection recorded |
| Codec.KnownPrefix | script.js:927 | the number of leading bubble records whose colour has a table entry: every earlier record's colour has one, and the record at that position, if any, lacks one |
| Codec.ImportedBubbles | script.js:920-937 | the imported bubbles carry exactly the records' ids, distinct when the records' ids are, and keep colours that have table entries |
| Codec.ImportScene | script.js:916-969 | the bubbles are those of the records before the first unknown colour, all with table colours; the scene is valid when the document's ids are distinct; every connection joins imported bubbles and comes from a record; the zoom can be divided by. A complete import has the document's ids, one bubble per record, the connections of the connection loop over all records, and the document's zoom and translation when present. An aborted import has fewer bubbles, no connections, zoom 1 and translation 0 |
| Codec.ImportStepOfExported | script.js:940-947 | importing the record of a connection whose pair is new appends its normalised form |
| Codec.ImportExportedConnections | script.js:939-960 | importing the exported records of a duplicate-free list gives back the list with line type and colour normalised |
| Codec.BubblesRoundTrip | script.js:920-937 | importing and re-exporting bubble records gives the records back |
| Codec.ExportedIds | script.js:884-885 | the exported ids are exactly the scene's bubble ids |
| Codec.ExportedColorsFound | script.js:884-893 | when every bubble colour has a table entry, no exported bubble record stops the import |
| Codec.RoundTrip | script.js:883-969 | for a valid scene whose colours all have table entries, export then import then export gives the first export |
| Codec.DuplicateColourLandsOnLast | script.js:940-958 | importing a→b, b→c, then b→a coloured red gives a→b and b→c with b→c red: the duplicate is skipped and its colour lands on the last connection |
| Gestures.MouseDownAction | script.js:225-281 | each action, characterised by its own condition on button, modifiers, target, connecting and editing: pan, delete, recolour, connect, create, toggle, drag |
| Gestures.Toggled | script.js:368-371 | the toggled line type is solid or dashed and differs from the old one |
| Gestures.ToggleTwice | script.js:368-371 | toggling twice restores either line type |
| Gestures.ParseKeyNumber | script.js:206 | a number is read exactly when the key starts with a digit; a one-digit key reads as its value |
| Gestures.KeyColor | script.js:206-215 | keys 1 to 9 select the palette option at that position when it exists; a one-character key selects something exactly then, so "0" or a digit past the palette selects nothing; any choice is a palette colour; a key that does not start with a digit selects nothing |
| Gestures.ScreenToCanvas | script.js:185-191 | the canvas point returned is drawn exactly under the screen point it was given |
| Gestures.CanvasRoundTrip | script.js:185-191 | mapping a canvas point to the screen and back gives it back |
| Gestures.ReleaseAsWritten | script.js:349-353 | the release as written changes the connections only when the target is a bubble other than the start, and then the two are joined |
| Gestures.ReleaseAsWrittenLeavesDangling | script.js:349-353 | the release rule as written creates a connection from a bubble deleted mid-gesture |
| Gestures.Release | script.js:349-353 | the corrected release keeps the scene valid; it changes the connections only when the target is another bubble and the start still exists, and then it runs the duplicate-checked createConnection from the start to the target, after which the two are joined |
| Drag.ListedFollowers | script.js:317 | the list of followers holds exactly the follower set |
| Drag.DragFromKeepsValid | script.js:314-335 | a drag step keeps the scene valid and every bubble colour in the colour table |
| Drag.DragMove | script.js:314-335 | a drag step keeps the list's length and changes only positions |
| Drag.DragMoveEffect | script.js:314-335 | only positions change; the dragged bubble lands on the cursor point, or overshoots by the displacement when it lies on a cycle; every other follower moves by the displacement, so it keeps its offset to the dragged bubble unless the dragged bubble is on a cycle; every other bubble stays put; a bubble no longer in the scene moves nothing |
| Session.NewBubbleCentred | script.js:400-404 | the new bubble's nominal 80 x 40 box is centred on the screen point clicked |
| Session.MindMap.constructor | script.js:2-38 | empty scene, zoom 1, no translation, clean, all gestures idle, solid line type, colour "default" |
| Session.MindMap.MarkAsChanged | script.js:1214-1219 | sets the dirty flag |
| Session.MindMap.MarkAsSaved | script.js:1221-1226 | clears the dirty flag; validity is kept |
| Session.MindMap.HasConnectionBetween | script.js:611-615 | true exactly when a connection joins the two bubbles in either direction |
| Session.MindMap.CreateConnection | script.js:610-733 | the connections become AddConnection of the old ones; the map is marked changed exactly when a connection was appended; validity is kept |
| Session.MindMap.DeleteBubble | script.js:757-769 | removes the bubble and every connection touching it, keeps validity, marks the map changed |
| Session.MindMap.DeleteConnection | script.js:771-777 | removes the connection, keeps validity, marks the map changed |
| Session.MindMap.HandleConnectionMouseDown | script.js:721-727 | ctrl+right or middle button deletes the connection and stops the event; any other press changes nothing and propagates to the canvas |
| Session.MindMap.GetChildBubbles | script.js:1145-1163 | duplicate-free, exactly the descendants of the bubble |
| Session.MindMap.ChangeBubbleColor | script.js:1185-1212 | recolours the bubble; when it has outgoing connections, pins the colour on every connection ending at it; marks the map changed; keeps validity |
| Session.MindMap.PinIncomingConnections | script.js:1197-1208 | the loop leaves the connections equal to PinIncoming of the old ones |
| Session.MindMap.ClearAll | script.js:1079-1100 | a declined confirmation changes nothing; otherwise both lists are empty, zoom 1, translation 0, and the map is marked changed |
| Session.MindMap.CreateBubble | script.js:392-408 | appends one "Idea" bubble in the selected colour, offset (40, 20) up-left of the canvas point under the cursor; keeps validity; marks the map changed |
| Session.MindMap.ToggleLineType | script.js:368-376 | the line type becomes the toggled one |
| Session.MindMap.HandleMouseDown | script.js:225-281 | for each dispatched action, the exact new scene, gesture state and dirty flag; validity is kept |
| Session.MindMap.MouseDownOnCanvas | script.js:226-258 | a press off any bubble starts a pan at the cursor, or, with the right button, creates a bubble there |
| Session.MindMap.MouseDownEdit | script.js:232-247 | a press that edits the target deletes it or recolours it; the gesture state is untouched |
| Session.MindMap.MouseDownGesture | script.js:249-280 | a press on a bubble starts connecting with a solid line, toggles the line type, or starts a drag recording the grab offset; the scene is untouched |
| Session.MindMap.BeginPan | script.js:227-228 | panning from the given point; validity is kept |
| Session.MindMap.BeginConnect | script.js:252-254 | connecting from the bubble, with a solid line |
| Session.MindMap.BeginDrag | script.js:267-278 | dragging the bubble, with the offset between the cursor's canvas point and the bubble's corner |
| Session.MindMap.ShiftEach | script.js:330-334 | after the loop, exactly the listed bubbles are shifted by (dx, dy) |
| Session.MindMap.DragTo | script.js:314-335 | the bubbles become DragMove of the old ones; validity is kept |
| Session.MindMap.DragFromTo | script.js:317-334 | the dragged bubble is placed at the point, then every follower is shifted by the same displacement: the bubbles become DragFrom of the old ones |
| Session.MindMap.FollowersOf | script.js:317 | a duplicate-free list of exactly the followers: the descendants with space held, none otherwise |
| Session.MindMap.HandleMouseMove | script.js:283-342 | a pan adds the cursor movement to the translation; a shift-drag resizes the target; a plain drag moves it and its followers to the cursor less the grab offset; nothing else changes |
| Session.MindMap.HandleMouseUp | script.js:344-359 | panning and dragging end; a connecting gesture ends and commits the corrected Release, unless a drag was also under way; the map is marked changed exactly when a connection was added |
| Session.MindMap.HandleKeyDown | script.js:193-217 | space outside label editing arms subtree dragging; left shift toggles the line type while connecting; keys 1-9 outside editing select a palette colour |
| Session.MindMap.HandleKeyUp | script.js:219-223 | releasing space disarms subtree dragging; validity is kept |
| Session.MindMap.HandleWheel | script.js:1165-1183 | the translation moves against the wheel delta; the zoom is untouched; validity is kept |
| Session.MindMap.HandleColorChange | script.js:805-815 | a click on an option selects its colour; elsewhere nothing changes; validity is kept |
| Session.MindMap.EditBubble | script.js:461-471 | a bubble not being edited enters editing with its text saved; one already being edited is untouched |
| Session.MindMap.HandleDoubleClick | script.js:361-366 | a double click on a bubble opens its editor; elsewhere nothing changes |
| Session.MindMap.FinishEditing | script.js:476-487 | commits CommitText of the input and the saved text, leaves editing, and marks the map changed exactly when the bubble was being edited |
| Session.MindMap.CancelEditing | script.js:488-491 | restores the saved text and leaves editing, without marking the map changed |
| Session.MindMap.ExportData | script.js:883-914 | the document of the current scene, which survives import and re-export unchanged |
| Session.MindMap.ImportData | script.js:916-969 | the scene becomes ImportScene of the document, including the abort at the first bubble whose colour has no table entry; the map is marked changed; validity is kept; `ok` tells whether the import ran to completion |
| Session.MindMap.ApplyImportedView | script.js:962-966 | a truthy zoom replaces the zoom; a present translation replaces the translation; a valid map stays valid |
| Session.MindMap.AppendImportedBubbles | script.js:920-937 | one bubble per record, in order, up to the first record whose colour has no table entry; `ok` is true exactly when there is none |
| Session.MindMap.AppendImportedConnections | script.js:939-960 | the connection loop yields ImportConnections of the records |

## Left out

- SVG and DOM construction and styling are not modelled: `createTempLine`, the drawing half of `createConnection`, `updateConnection`, `createCurvePath` and the gradient stops. They produce no scene state.
- `applyBubbleColor` is modelled only by its effect on the scene. It sets the bubble's colour, and its lookup throws for a colour the table lacks (`ColorFound`). The style properties it sets are not modelled.
- A bubble record without a `color` field is not modelled. The record's colour is a string, so `undefined` cannot be expressed.
- An exception inside an event handler is modelled only for `importData`. The other lookups cannot fail under `Valid()`.
- Session.MindMap.ChangeBubbleColor: requires a colour with a table entry. Its only caller passes the selected colour, which `Valid()` keeps in the table.
- Session.MindMap.constructor: requires every palette colour to have a table entry. The palette options come from the page's markup, which is not part of this model.
- `resizeBubble` is not modelled. It measures rendered sizes and is not reached from the handlers modelled here.
- Bubble width and font size are not modelled. The exported `width`/`fontSize` strings are carried by the DOM only.
- Theme handling is not modelled: `handleThemeChange`, `saveThemePreference` and `loadThemePreference`.
- `exportToPNG` is not modelled. It is canvas drawing.
- Storage and file I/O are not modelled: `exportToJSON`, `saveMindMap`, `loadMindMap`, `loadMindMapFromFile`, `autoLoadMindMap` and `JSON.parse`. The document is a record.
- A malformed document is not modelled: the document always has its `bubbles` and `connections` lists. In the code, a document without a `bubbles` array throws at `script.js:920` after `clearAll(false)` (`script.js:917`) has emptied the map. One without a `connections` array throws at `script.js:939` after its bubbles have been imported, and the zoom and translation keep their reset values.
- Bubbles are identified by their `data-id`, not by element identity. A new bubble's id must only be absent from the current bubbles, so an id freed by a deletion may be reused while `connectStart` or `dragTarget` still names it; the model would then connect or drag the new bubble, where the code holds the removed element, which no new element is `===` to.
- Ids are given inputs. `Math.random` bubble and gradient ids are not modelled. `CreateBubble` takes a fresh id as a parameter. Export assumes every bubble already has its id.
- The canvas's `getBoundingClientRect` origin is a constant of the object (`canvasOrigin`). Layout changes of the page are not modelled.
- The `setTimeout` that opens the editor after `createBubble` is not modelled; it is a timer. `updateBrowserZoom`, `toggleMinimize` and `updateZoomDisplay` are not modelled either.
- Zoom clamping to `minZoom`/`maxZoom` is not modelled. The code never applies it.
- Coordinates are exact reals. Floating-point rounding, `NaN` from `parseFloat` and the `"px"` string round trip are not modelled.
- `parseInt` on keys reads only leading digits. Signs and leading whitespace are not modelled, since key names do not carry them.
- The blur that may follow Escape in the label editor is not modelled. Whether it then runs the commit is browser dependent.
- `tempLine` is not modelled: it is present exactly while connecting. `isWPressed` is never read.
- The truthiness of an imported zoom covers absent and zero values only; `NaN` is not modelled.
- Codec.ImportScene: the validity of the imported scene is promised only for documents whose bubble ids are distinct. With repeated ids the code would build two elements sharing an id.
- Session.MindMap.ImportData: requires distinct bubble ids in the document, for the same reason.
- Session.MindMap.HandleMouseUp: does not promise that every gesture flag is idle afterwards. A release that ends a drag leaves a connecting gesture begun during the drag pending, and the contract states exactly that.

## Findings

| source | as written | input that shows it | evidently intended | confidence | as-written member | corrected member |
|---|---|---|---|---|---|---|
| script.js:349-353 | on release while connecting, a connection is created whenever the target is a bubble other than `connectStart`, even if `connectStart` was deleted during the gesture | right-press on bubble a (starts connecting), middle-press on a (deletes it), release over bubble b: a connection a→b to a deleted bubble is added | create the connection only when both bubbles are still in the scene | not executed | Gestures.ReleaseAsWrittenLeavesDangling | Gestures.Release |
