/** The MindMap object: the scene, the view transform, the dirty flag and the
    gesture state, all updated in place by the event handlers. Hit-testing
    (`closest(".bubble")`) arrives as the `target` of an event. */
module Session {
  import opened Scene
  import opened Reach
  import opened Codec
  import opened Gestures
  import opened Drag

  /** The gesture-controller fields, packed so that a contract can say which
      of them a handler changes. */
  datatype GestureState = GestureState(
    isPanning: bool,
    panStart: Point,
    isDragging: bool,
    dragTarget: Option<BubbleId>,
    dragOffset: Point,
    isConnecting: bool,
    connectStart: Option<BubbleId>,
    currentLineType: string,
    isSpacePressed: bool,
    selectedColor: string)

  /** Whether the bubble under the cursor is being edited. */
  function TargetEditing(bs: seq<Bubble>, target: Option<BubbleId>): bool {
    target.Some? && Lookup(bs, target.value).Some? && Lookup(bs, target.value).value.editing.Some?
  }

  /** The bubble createBubble adds for a cursor at canvas position `c`. */
  function NewBubble(id: BubbleId, color: string, c: Point): Bubble {
    Bubble(id, "Idea", color, c.x - 40.0, c.y - 20.0, None, None)
  }

  /** The new bubble's nominal 80 x 40 box is centred under the cursor:
      its centre is drawn at the screen point that was clicked. */
  lemma NewBubbleCentred(id: BubbleId, color: string, screen: Point, origin: Point, tx: real, ty: real, zoom: real)
    requires zoom != 0.0
    ensures var b := NewBubble(id, color, ScreenToCanvas(screen, origin, tx, ty, zoom));
      CanvasToScreen(Point(b.left + 40.0, b.top + 20.0), origin, tx, ty, zoom) == screen
  {
    var c := ScreenToCanvas(screen, origin, tx, ty, zoom);
    var b := NewBubble(id, color, c);
    assert Point(b.left + 40.0, b.top + 20.0) == c;
  }

  class MindMap {
    /** The colour keys of the palette options, in order. */
    const palette: seq<string>
    /** The top-left corner of the canvas element on screen. */
    const canvasOrigin: Point

    var bubbles: seq<Bubble>
    var connections: seq<Connection>
    var zoomLevel: real
    var translateX: real
    var translateY: real
    var hasUnsavedChanges: bool

    var isPanning: bool
    var panStart: Point
    var isDragging: bool
    var dragTarget: Option<BubbleId>
    var dragOffset: Point
    var isConnecting: bool
    var connectStart: Option<BubbleId>
    var currentLineType: string
    var isSpacePressed: bool
    var selectedColor: string

    /** The scene is valid, the zoom can be divided by, the line type is one
        of the two styles, and each gesture flag goes with its bubble. Every
        colour a bubble carries, the selected colour and every palette
        colour have an entry in the colour table, so the lookups of
        `applyBubbleColor`, `createConnection` and `changeBubbleColor`
        succeed. */
    predicate Valid()
      reads this
    {
      && SceneValid(bubbles, connections)
      && ColorsFound(bubbles)
      && ColorFound(selectedColor)
      && (forall p :: p in palette ==> ColorFound(p))
      && zoomLevel != 0.0
      && (currentLineType == Solid || currentLineType == Dashed)
      && (isDragging <==> dragTarget.Some?)
      && (isConnecting <==> connectStart.Some?)
    }

    function Persistent(): SceneState
      reads this
    {
      SceneState(bubbles, connections, zoomLevel, translateX, translateY)
    }

    function Gesture(): GestureState
      reads this
    {
      GestureState(isPanning, panStart, isDragging, dragTarget, dragOffset,
                   isConnecting, connectStart, currentLineType, isSpacePressed, selectedColor)
    }

    /** screenToCanvas for a client position. */
    function ToCanvas(x: real, y: real): Point
      requires zoomLevel != 0.0
      reads this
    {
      ScreenToCanvas(Point(x, y), canvasOrigin, translateX, translateY, zoomLevel)
    }

    /** Where a drag puts the dragged bubble for a cursor at `e`: the
        canvas position of the cursor less the offset taken at mouse-down. */
    function DragPoint(e: MouseEvent): Point
      requires zoomLevel != 0.0
      reads this
    {
      var c := ToCanvas(e.clientX, e.clientY);
      Point(c.x - dragOffset.x, c.y - dragOffset.y)
    }

    /** The action handleMouseDown takes for `e` in the current state. */
    function Dispatch(e: MouseEvent): Action
      reads this
    {
      MouseDownAction(e, isConnecting, TargetEditing(bubbles, e.target))
    }

    constructor (palette: seq<string>, canvasOrigin: Point)
      requires forall p :: p in palette ==> ColorFound(p)
      ensures Valid()
      ensures this.palette == palette && this.canvasOrigin == canvasOrigin
      ensures Persistent() == SceneState([], [], 1.0, 0.0, 0.0)
      ensures !hasUnsavedChanges
      ensures Gesture() == GestureState(false, Point(0.0, 0.0), false, None, Point(0.0, 0.0),
                                        false, None, Solid, false, "default")
    {
      this.palette := palette;
      this.canvasOrigin := canvasOrigin;
      bubbles := [];
      connections := [];
      zoomLevel := 1.0;
      translateX := 0.0;
      translateY := 0.0;
      hasUnsavedChanges := false;
      isPanning := false;
      panStart := Point(0.0, 0.0);
      isDragging := false;
      dragTarget := None;
      dragOffset := Point(0.0, 0.0);
      isConnecting := false;
      connectStart := None;
      currentLineType := Solid;
      isSpacePressed := false;
      selectedColor := "default";
    }

    method MarkAsChanged()
      modifies this`hasUnsavedChanges
      ensures hasUnsavedChanges
      ensures old(Valid()) ==> Valid()
    {
      hasUnsavedChanges := true;
    }

    method MarkAsSaved()
      requires Valid()
      modifies this`hasUnsavedChanges
      ensures Valid()
      ensures !hasUnsavedChanges
    {
      hasUnsavedChanges := false;
    }

    // -------------------------------------------------------------------
    // Scene operations

    /** The duplicate check of createConnection: is there a connection
        between `a` and `b` in either direction? */
    method HasConnectionBetween(a: BubbleId, b: BubbleId) returns (found: bool)
      ensures found <==> HasPair(connections, a, b)
    {
      var i := 0;
      while i < |connections|
        invariant 0 <= i <= |connections|
        invariant forall k :: 0 <= k < i ==> !SamePair(connections[k], a, b)
      {
        if SamePair(connections[i], a, b) {
          return true;
        }
        i := i + 1;
      }
      return false;
    }

    /** createConnection: appends a connection unless the unordered pair is
        already joined; only an append marks the map changed. */
    method CreateConnection(a: BubbleId, b: BubbleId, lineType: string)
      requires Valid()
      requires a in Ids(bubbles) && b in Ids(bubbles)
      modifies this`connections, this`hasUnsavedChanges
      ensures Valid()
      ensures connections == AddConnection(old(connections), a, b, lineType)
      ensures hasUnsavedChanges == (old(hasUnsavedChanges) || |connections| > |old(connections)|)
    {
      var present := HasConnectionBetween(a, b);
      if present {
        return;
      }
      ghost var c0 := connections;
      connections := connections + [Connection(a, b, lineType, None)];
      assert connections == AddConnection(c0, a, b, lineType);
      assert EndpointsLive(bubbles, connections) by {
        assert forall c :: c in connections ==> c in c0 || c == Connection(a, b, lineType, None);
      }
      MarkAsChanged();
    }

    /** deleteBubble: removes the bubble and every connection touching it. */
    method DeleteBubble(id: BubbleId)
      requires Valid()
      modifies this`bubbles, this`connections, this`hasUnsavedChanges
      ensures Valid()
      ensures bubbles == RemoveBubble(old(bubbles), id) && id !in Ids(bubbles)
      ensures connections == RemoveTouching(old(connections), id)
      ensures hasUnsavedChanges
    {
      DeleteKeepsValid(bubbles, connections, id);
      connections := RemoveTouching(connections, id);
      bubbles := RemoveBubble(bubbles, id);
      assert Valid();
      MarkAsChanged();
    }

    /** deleteConnection: removes the given connection. */
    method DeleteConnection(c: Connection)
      requires Valid()
      modifies this`connections, this`hasUnsavedChanges
      ensures Valid()
      ensures connections == RemoveConnection(old(connections), c) && c !in connections
      ensures hasUnsavedChanges
    {
      RemoveConnectionKeepsValid(bubbles, connections, c);
      connections := RemoveConnection(connections, c);
      MarkAsChanged();
    }

    /** The mouse-down listener of a connection's hit path: ctrl+right or
        middle button deletes the connection and stops the event. Any other
        press changes nothing here and `propagates` to the canvas, where
        handleMouseDown sees it with no bubble under the cursor: a left
        press without ctrl starts a pan, a ctrl+left press does nothing, a
        right press creates a bubble, and any other button does nothing. */
    method HandleConnectionMouseDown(button: int, ctrlKey: bool, c: Connection) returns (propagates: bool)
      requires Valid()
      modifies this`connections, this`hasUnsavedChanges
      ensures Valid()
      ensures propagates <==> !((ctrlKey && button == 2) || button == 1)
      ensures !propagates ==> connections == RemoveConnection(old(connections), c) && hasUnsavedChanges
      ensures propagates ==> unchanged(this)
    {
      propagates := !((ctrlKey && button == 2) || button == 1);
      if !propagates {
        DeleteConnection(c);
      }
    }

    /** getChildBubbles: every bubble reachable from `id`, without duplicates. */
    method GetChildBubbles(id: BubbleId) returns (children: seq<BubbleId>)
      ensures Distinct(children)
      ensures forall y :: y in children <==> y in Descendants(connections, id)
    {
      children := ChildBubbles(connections, id);
    }

    /** changeBubbleColor: recolours the bubble and, when it has children,
        pins `color` on every connection ending at it. */
    method ChangeBubbleColor(id: BubbleId, color: string)
      requires Valid() && ColorFound(color)
      modifies this`bubbles, this`connections, this`hasUnsavedChanges
      ensures Valid()
      ensures bubbles == Recolor(old(bubbles), id, color)
      ensures connections ==
        if HasOutgoing(old(connections), id) then PinIncoming(old(connections), id, color) else old(connections)
      ensures hasUnsavedChanges
    {
      var recolored := Recolor(bubbles, id, color);
      assert SceneValid(recolored, connections) && ColorsFound(recolored) by {
        SameIdsKeepValid(bubbles, recolored, connections);
        RecolorKeepsFound(bubbles, id, color);
      }
      bubbles := recolored;
      var children := GetChildBubbles(id);
      assert |children| > 0 <==> HasOutgoing(connections, id) by {
        DescendantsNonEmpty(connections, id);
        if |children| > 0 {
          assert children[0] in Descendants(connections, id);
        } else {
          assert children == [];
          assert Descendants(connections, id) == {};
        }
      }
      if |children| > 0 {
        assert SceneValid(bubbles, PinIncoming(connections, id, color)) by {
          PinIncomingKeepsValid(bubbles, connections, id, color);
        }
        PinIncomingConnections(id, color);
      }
      MarkAsChanged();
    }

    /** The loop of changeBubbleColor over the connections: each one ending
        at `id` gets `color` as its custom colour. */
    method PinIncomingConnections(id: BubbleId, color: string)
      modifies this`connections
      ensures connections == PinIncoming(old(connections), id, color)
    {
      ghost var c0 := connections;
      var i := 0;
      while i < |connections|
        invariant 0 <= i <= |connections| == |c0|
        invariant forall k :: 0 <= k < i ==> connections[k] == PinIncoming(c0, id, color)[k]
        invariant forall k :: i <= k < |c0| ==> connections[k] == c0[k]
      {
        if connections[i].end == id {
          connections := connections[i := connections[i].(customColor := Some(color))];
        }
        i := i + 1;
      }
    }

    /** clearAll: unless the user declines the confirmation, empties both
        lists and resets the view. */
    method ClearAll(confirm: bool, confirmed: bool)
      requires Valid()
      modifies this`bubbles, this`connections, this`zoomLevel, this`translateX, this`translateY,
               this`hasUnsavedChanges
      ensures Valid()
      ensures confirm && !confirmed ==> unchanged(this)
      ensures !confirm || confirmed ==>
        Persistent() == SceneState([], [], 1.0, 0.0, 0.0) && hasUnsavedChanges
    {
      if confirm && !confirmed {
        return;
      }
      connections := [];
      bubbles := [];
      zoomLevel := 1.0;
      translateX := 0.0;
      translateY := 0.0;
      MarkAsChanged();
    }

    /** createBubble: a new "Idea" bubble in the selected colour, placed so
        that its nominal 80 x 40 box is centred under the cursor. `freshId`
        is the bubble's identity. */
    method CreateBubble(screenX: real, screenY: real, freshId: BubbleId)
      requires Valid()
      requires freshId !in Ids(bubbles)
      modifies this`bubbles, this`hasUnsavedChanges
      ensures Valid()
      ensures bubbles == old(bubbles) + [NewBubble(freshId, selectedColor, ToCanvas(screenX, screenY))]
      ensures hasUnsavedChanges
    {
      var c := ToCanvas(screenX, screenY);
      var b := NewBubble(freshId, selectedColor, c);
      ghost var bs0 := bubbles;
      bubbles := bubbles + [b];
      assert Ids(bubbles) == Ids(bs0) + {freshId} by {
        assert forall x :: x in bubbles <==> x in bs0 || x == b;
      }
      assert ColorsFound(bubbles) by {
        assert forall x :: x in bubbles ==> x in bs0 || x == b;
      }
      assert DistinctIds(bubbles) by {
        forall i, j | 0 <= i < j < |bubbles| ensures bubbles[i].id != bubbles[j].id {
          if j == |bs0| {
            assert bs0[i] in bs0;
          }
        }
      }
      MarkAsChanged();
    }

    /** toggleLineType: swaps solid and dashed. */
    method ToggleLineType()
      requires Valid()
      modifies this`currentLineType
      ensures Valid()
      ensures currentLineType == Toggled(old(currentLineType))
    {
      currentLineType := Toggled(currentLineType);
    }

    // -------------------------------------------------------------------
    // Cursor gestures

    /** handleMouseDown: the first matching case of the priority order
        decides; the contract gives the effect of each. */
    method HandleMouseDown(e: MouseEvent, freshId: BubbleId)
      requires Valid()
      requires e.target.Some? ==> e.target.value in Ids(bubbles)
      requires freshId !in Ids(bubbles)
      modifies this`bubbles, this`connections, this`hasUnsavedChanges, this`isPanning, this`panStart,
               this`isDragging, this`dragTarget, this`dragOffset, this`isConnecting, this`connectStart,
               this`currentLineType
      ensures Valid()
      ensures old(Dispatch(e)) == StartPan ==>
        && Gesture() == old(Gesture()).(isPanning := true, panStart := Point(e.clientX, e.clientY))
        && Persistent() == old(Persistent()) && hasUnsavedChanges == old(hasUnsavedChanges)
      ensures old(Dispatch(e)) == DeleteTarget ==>
        && bubbles == RemoveBubble(old(bubbles), e.target.value)
        && connections == RemoveTouching(old(connections), e.target.value)
        && Gesture() == old(Gesture()) && hasUnsavedChanges
      ensures old(Dispatch(e)) == RecolorTarget ==>
        && bubbles == Recolor(old(bubbles), e.target.value, old(selectedColor))
        && connections == (if HasOutgoing(old(connections), e.target.value)
                           then PinIncoming(old(connections), e.target.value, old(selectedColor))
                           else old(connections))
        && Gesture() == old(Gesture()) && hasUnsavedChanges
      ensures old(Dispatch(e)) == StartConnect ==>
        && Gesture() == old(Gesture()).(isConnecting := true, connectStart := e.target, currentLineType := Solid)
        && Persistent() == old(Persistent()) && hasUnsavedChanges == old(hasUnsavedChanges)
      ensures old(Dispatch(e)) == NewBubbleAt ==>
        && bubbles == old(bubbles) + [NewBubble(freshId, old(selectedColor), old(ToCanvas(e.clientX, e.clientY)))]
        && connections == old(connections)
        && Gesture() == old(Gesture()) && hasUnsavedChanges
      ensures old(Dispatch(e)) == ToggleLine ==>
        && Gesture() == old(Gesture()).(currentLineType := Toggled(old(currentLineType)))
        && Persistent() == old(Persistent()) && hasUnsavedChanges == old(hasUnsavedChanges)
      ensures old(Dispatch(e)) == StartDrag ==>
        var b := Lookup(old(bubbles), e.target.value).value;
        var c := old(ToCanvas(e.clientX, e.clientY));
        && Gesture() == old(Gesture()).(isDragging := true, dragTarget := e.target,
                                         panStart := Point(e.clientX, e.clientY),
                                         dragOffset := Point(c.x - b.left, c.y - b.top))
        && Persistent() == old(Persistent()) && hasUnsavedChanges == old(hasUnsavedChanges)
      ensures old(Dispatch(e)) == Ignore ==>
        Gesture() == old(Gesture()) && Persistent() == old(Persistent()) && hasUnsavedChanges == old(hasUnsavedChanges)
    {
      var a := Dispatch(e);
      if a == StartPan || a == NewBubbleAt {
        MouseDownOnCanvas(e, freshId, a);
      } else if a == DeleteTarget || a == RecolorTarget {
        MouseDownEdit(e, a);
      } else if a != Ignore {
        MouseDownGesture(e, a);
      }
    }

    /** handleMouseDown off any bubble: pan or create a bubble. */
    method MouseDownOnCanvas(e: MouseEvent, freshId: BubbleId, a: Action)
      requires Valid() && freshId !in Ids(bubbles)
      requires a == StartPan || a == NewBubbleAt
      modifies this`bubbles, this`hasUnsavedChanges, this`isPanning, this`panStart
      ensures Valid()
      ensures a == StartPan ==>
        && Gesture() == old(Gesture()).(isPanning := true, panStart := Point(e.clientX, e.clientY))
        && Persistent() == old(Persistent()) && hasUnsavedChanges == old(hasUnsavedChanges)
      ensures a == NewBubbleAt ==>
        && bubbles == old(bubbles) + [NewBubble(freshId, old(selectedColor), old(ToCanvas(e.clientX, e.clientY)))]
        && Gesture() == old(Gesture()) && hasUnsavedChanges
    {
      if a == StartPan {
        BeginPan(e.clientX, e.clientY);
      } else {
        CreateBubble(e.clientX, e.clientY, freshId);
      }
    }

    /** handleMouseDown editing the bubble under the cursor: delete it or
        recolour it. */
    method MouseDownEdit(e: MouseEvent, a: Action)
      requires Valid() && e.target.Some? && e.target.value in Ids(bubbles)
      requires a == DeleteTarget || a == RecolorTarget
      modifies this`bubbles, this`connections, this`hasUnsavedChanges
      ensures Valid() && hasUnsavedChanges && Gesture() == old(Gesture())
      ensures a == DeleteTarget ==>
        && bubbles == RemoveBubble(old(bubbles), e.target.value)
        && connections == RemoveTouching(old(connections), e.target.value)
      ensures a == RecolorTarget ==>
        && bubbles == Recolor(old(bubbles), e.target.value, old(selectedColor))
        && connections == (if HasOutgoing(old(connections), e.target.value)
                           then PinIncoming(old(connections), e.target.value, old(selectedColor))
                           else old(connections))
    {
      if a == DeleteTarget {
        DeleteBubble(e.target.value);
      } else {
        ChangeBubbleColor(e.target.value, selectedColor);
      }
    }

    /** handleMouseDown starting or adjusting a gesture on the bubble under
        the cursor: start connecting, toggle the line type, start dragging. */
    method MouseDownGesture(e: MouseEvent, a: Action)
      requires Valid() && e.target.Some? && e.target.value in Ids(bubbles)
      requires a == StartConnect || a == ToggleLine || a == StartDrag
      modifies this`panStart, this`isDragging, this`dragTarget, this`dragOffset,
               this`isConnecting, this`connectStart, this`currentLineType
      ensures Valid()
      ensures Persistent() == old(Persistent()) && hasUnsavedChanges == old(hasUnsavedChanges)
      ensures a == StartConnect ==>
        Gesture() == old(Gesture()).(isConnecting := true, connectStart := e.target, currentLineType := Solid)
      ensures a == ToggleLine ==>
        Gesture() == old(Gesture()).(currentLineType := Toggled(old(currentLineType)))
      ensures a == StartDrag ==>
        var b := Lookup(old(bubbles), e.target.value).value;
        var c := old(ToCanvas(e.clientX, e.clientY));
        Gesture() == old(Gesture()).(isDragging := true, dragTarget := e.target,
                                     panStart := Point(e.clientX, e.clientY),
                                     dragOffset := Point(c.x - b.left, c.y - b.top))
    {
      if a == StartConnect {
        BeginConnect(e.target.value);
      } else if a == ToggleLine {
        ToggleLineType();
      } else {
        BeginDrag(e.target.value, e.clientX, e.clientY);
      }
    }

    method BeginPan(x: real, y: real)
      requires Valid()
      modifies this`isPanning, this`panStart
      ensures Valid()
      ensures isPanning && panStart == Point(x, y)
    {
      isPanning := true;
      panStart := Point(x, y);
    }

    /** Starting a connection always starts with a solid line. */
    method BeginConnect(t: BubbleId)
      requires Valid()
      modifies this`isConnecting, this`connectStart, this`currentLineType
      ensures Valid()
      ensures isConnecting && connectStart == Some(t) && currentLineType == Solid
    {
      isConnecting := true;
      connectStart := Some(t);
      currentLineType := Solid;
    }

    /** Starting a drag records the cursor and the grab offset inside the
        bubble, in canvas units. */
    method BeginDrag(t: BubbleId, x: real, y: real)
      requires Valid() && t in Ids(bubbles)
      modifies this`isDragging, this`dragTarget, this`panStart, this`dragOffset
      ensures Valid()
      ensures var b := Lookup(bubbles, t).value;
        var c := ToCanvas(x, y);
        isDragging && dragTarget == Some(t) && panStart == Point(x, y) &&
        dragOffset == Point(c.x - b.left, c.y - b.top)
    {
      var b := Lookup(bubbles, t).value;
      var c := ToCanvas(x, y);
      isDragging := true;
      dragTarget := Some(t);
      panStart := Point(x, y);
      dragOffset := Point(c.x - b.left, c.y - b.top);
    }

    /** The forEach over the children in handleMouseMove: each listed
        bubble in turn is shifted by (dx, dy). */
    method ShiftEach(ids: seq<BubbleId>, dx: real, dy: real)
      requires Distinct(ids)
      modifies this`bubbles
      ensures bubbles == MoveBy(old(bubbles), Listed(ids, |ids|), dx, dy)
    {
      ghost var base := bubbles;
      var i := 0;
      while i < |ids|
        invariant 0 <= i <= |ids|
        invariant bubbles == MoveBy(base, Listed(ids, i), dx, dy)
      {
        ghost var moved := Listed(ids, i);
        assert ids[i] !in moved;
        MoveByOneMore(base, moved, ids[i], dx, dy);
        assert Listed(ids, i + 1) == moved + {ids[i]};
        bubbles := MoveBy(bubbles, {ids[i]}, dx, dy);
        i := i + 1;
      }
    }

    /** The non-shift drag step: the dragged bubble goes to `p`; with space
        held, each bubble of getChildBubbles follows by the same offset. */
    method DragTo(t: BubbleId, p: Point)
      requires Valid()
      modifies this`bubbles
      ensures Valid()
      ensures bubbles == DragMove(old(bubbles), connections, t, p, isSpacePressed)
    {
      match Lookup(bubbles, t)
      case None =>
      case Some(b) =>
        DragFromKeepsValid(bubbles, connections, t, b, p, isSpacePressed);
        DragFromTo(t, b, p);
    }

    /** The moves of one drag step of `t`, found as `b`: `t` is placed at
        `p`, then each follower is shifted by the same displacement. */
    method DragFromTo(t: BubbleId, b: Bubble, p: Point)
      modifies this`bubbles
      ensures bubbles == DragFrom(old(bubbles), connections, t, b, p, isSpacePressed)
    {
      var children := FollowersOf(t);
      var dx := p.x - b.left;
      var dy := p.y - b.top;
      bubbles := MoveBy(bubbles, {t}, dx, dy);
      ShiftEach(children, dx, dy);
    }

    /** `isSpacePressed ? getChildBubbles(t) : []`, as a list of the followers. */
    method FollowersOf(t: BubbleId) returns (children: seq<BubbleId>)
      ensures Distinct(children)
      ensures Listed(children, |children|) == Followers(connections, t, isSpacePressed)
    {
      children := [];
      if isSpacePressed {
        children := GetChildBubbles(t);
      }
      ListedFollowers(connections, t, isSpacePressed, children);
    }

    /** handleMouseMove: panning moves the view; a drag with shift resizes
        the dragged bubble; any other drag moves it (and its descendants
        while space is held). Nothing else changes. */
    method HandleMouseMove(e: MouseEvent)
      requires Valid()
      modifies this`bubbles, this`translateX, this`translateY, this`panStart
      ensures Valid()
      ensures old(isPanning) ==>
        && translateX == old(translateX) + (e.clientX - old(panStart).x)
        && translateY == old(translateY) + (e.clientY - old(panStart).y)
        && panStart == Point(e.clientX, e.clientY)
        && bubbles == old(bubbles)
      ensures !old(isPanning) && isDragging && e.shiftKey ==>
        && bubbles == ResizeAt(old(bubbles), dragTarget.value, old(panStart).y - e.clientY)
        && panStart == Point(e.clientX, e.clientY)
      ensures !old(isPanning) && isDragging && !e.shiftKey ==>
        && bubbles == DragMove(old(bubbles), connections, dragTarget.value, old(DragPoint(e)), isSpacePressed)
        && panStart == old(panStart)
      ensures !old(isPanning) && !isDragging ==> bubbles == old(bubbles) && panStart == old(panStart)
      ensures !old(isPanning) ==> translateX == old(translateX) && translateY == old(translateY)
    {
      if isPanning {
        var dx := e.clientX - panStart.x;
        var dy := e.clientY - panStart.y;
        translateX := translateX + dx;
        translateY := translateY + dy;
        panStart := Point(e.clientX, e.clientY);
        return;
      }
      if isDragging {
        var t := dragTarget.value;
        if e.shiftKey {
          var deltaY := panStart.y - e.clientY;
          SameIdsKeepValid(bubbles, ResizeAt(bubbles, t, deltaY), connections);
          SameColorsKeepFound(bubbles, ResizeAt(bubbles, t, deltaY));
          bubbles := ResizeAt(bubbles, t, deltaY);
          panStart := Point(e.clientX, e.clientY);
        } else {
          DragTo(t, DragPoint(e));
        }
      }
    }

    /** handleMouseUp: ends a pan and a drag; otherwise ends a connecting
        gesture, committing the connection when released over another
        bubble and the start bubble is still in the scene. With a drag and
        a connecting gesture both under way, only the drag ends. */
    method HandleMouseUp(target: Option<BubbleId>)
      requires Valid()
      requires target.Some? ==> target.value in Ids(bubbles)
      modifies this`isPanning, this`isDragging, this`dragTarget, this`isConnecting, this`connectStart,
               this`connections, this`hasUnsavedChanges
      ensures Valid()
      ensures !isPanning && !isDragging && dragTarget.None?
      ensures isConnecting == (old(isDragging) && old(isConnecting))
      ensures connectStart == if isConnecting then old(connectStart) else None
      ensures !old(isDragging) && old(isConnecting) ==>
        connections == Release(bubbles, old(connections), old(connectStart).value, target, currentLineType)
      ensures old(isDragging) || !old(isConnecting) ==> connections == old(connections)
      ensures hasUnsavedChanges == (old(hasUnsavedChanges) || |connections| > |old(connections)|)
    {
      isPanning := false;
      if isDragging {
        isDragging := false;
        dragTarget := None;
      } else if isConnecting {
        var start := connectStart.value;
        if target.Some? && target.value != start && Lookup(bubbles, start).Some? {
          CreateConnection(start, target.value, currentLineType);
        }
        isConnecting := false;
        connectStart := None;
      }
    }

    // -------------------------------------------------------------------
    // Keys, wheel, palette

    /** handleKeyDown: space (outside label editing) arms subtree dragging;
        left shift toggles the line type while connecting; keys 1-9
        (outside label editing) select the palette option at that position. */
    method HandleKeyDown(e: KeyEvent)
      requires Valid()
      modifies this`isSpacePressed, this`currentLineType, this`selectedColor
      ensures Valid()
      ensures isSpacePressed == (old(isSpacePressed) || (IsSpace(e) && !AnyEditing(bubbles)))
      ensures currentLineType ==
        if e.code == "ShiftLeft" && isConnecting then Toggled(old(currentLineType)) else old(currentLineType)
      ensures selectedColor ==
        if !AnyEditing(bubbles) && KeyColor(e.key, palette).Some? then KeyColor(e.key, palette).value
        else old(selectedColor)
      ensures selectedColor != old(selectedColor) ==> selectedColor in palette
    {
      var editing := AnyEditing(bubbles);
      if IsSpace(e) && !editing {
        isSpacePressed := true;
      }
      if e.code == "ShiftLeft" && isConnecting {
        ToggleLineType();
      }
      var choice := KeyColor(e.key, palette);
      if choice.Some? && !editing {
        selectedColor := choice.value;
      }
    }

    /** handleKeyUp: releasing space disarms subtree dragging. */
    method HandleKeyUp(e: KeyEvent)
      requires Valid()
      modifies this`isSpacePressed
      ensures Valid()
      ensures isSpacePressed == (old(isSpacePressed) && !IsSpace(e))
    {
      if IsSpace(e) {
        isSpacePressed := false;
      }
    }

    /** handleWheel: scrolling pans the view against the wheel delta; the
        zoom is left alone. */
    method HandleWheel(deltaX: real, deltaY: real)
      requires Valid()
      modifies this`translateX, this`translateY
      ensures Valid()
      ensures translateX == old(translateX) - deltaX && translateY == old(translateY) - deltaY
    {
      translateX := translateX + -deltaX;
      translateY := translateY + -deltaY;
    }

    /** handleColorChange: a click on a palette option selects its colour;
        a click elsewhere in the palette does nothing. */
    method HandleColorChange(option: Option<string>)
      requires Valid()
      requires option.Some? ==> option.value in palette
      modifies this`selectedColor
      ensures Valid()
      ensures selectedColor == if option.Some? then option.value else old(selectedColor)
    {
      if option.Some? {
        selectedColor := option.value;
      }
    }

    // -------------------------------------------------------------------
    // Label editing

    /** editBubble (reached by a double click): opens the editor on a bubble
        not already being edited. */
    method EditBubble(id: BubbleId)
      requires Valid()
      modifies this`bubbles
      ensures Valid()
      ensures |bubbles| == |old(bubbles)| && Ids(bubbles) == Ids(old(bubbles))
      ensures forall i :: 0 <= i < |old(bubbles)| ==>
        bubbles[i] == if old(bubbles)[i].id == id then BeginEdit(old(bubbles)[i]) else old(bubbles)[i]
    {
      match Lookup(bubbles, id)
      case None =>
      case Some(b) =>
        var nb := BeginEdit(b);
        SameIdsKeepValid(bubbles, Replace(bubbles, nb), connections);
        SameColorsKeepFound(bubbles, Replace(bubbles, nb));
        bubbles := Replace(bubbles, nb);
    }

    method HandleDoubleClick(target: Option<BubbleId>)
      requires Valid()
      modifies this`bubbles
      ensures Valid()
      ensures |bubbles| == |old(bubbles)|
      ensures target.None? ==> bubbles == old(bubbles)
      ensures target.Some? ==> forall i :: 0 <= i < |old(bubbles)| ==>
        bubbles[i] == if old(bubbles)[i].id == target.value then BeginEdit(old(bubbles)[i]) else old(bubbles)[i]
    {
      if target.Some? {
        EditBubble(target.value);
      }
    }

    /** finishEdit (Enter or leaving the field): commits the typed text, or
        keeps the old text when the field is empty, and marks the map changed. */
    method FinishEditing(id: BubbleId, input: string)
      requires Valid()
      modifies this`bubbles, this`hasUnsavedChanges
      ensures Valid()
      ensures |bubbles| == |old(bubbles)|
      ensures forall i :: 0 <= i < |old(bubbles)| ==>
        bubbles[i] == if old(bubbles)[i].id == id then FinishEdit(old(bubbles)[i], input) else old(bubbles)[i]
      ensures hasUnsavedChanges == (old(hasUnsavedChanges) || TargetEditing(old(bubbles), Some(id)))
    {
      match Lookup(bubbles, id)
      case None =>
      case Some(b) =>
        if b.editing.Some? {
          var nb := FinishEdit(b, input);
          SameIdsKeepValid(bubbles, Replace(bubbles, nb), connections);
          SameColorsKeepFound(bubbles, Replace(bubbles, nb));
          bubbles := Replace(bubbles, nb);
          MarkAsChanged();
        }
    }

    /** Escape in the editor: restores the text the bubble had; the map is
        not marked changed. */
    method CancelEditing(id: BubbleId)
      requires Valid()
      modifies this`bubbles
      ensures Valid()
      ensures |bubbles| == |old(bubbles)|
      ensures forall i :: 0 <= i < |old(bubbles)| ==>
        bubbles[i] == if old(bubbles)[i].id == id then CancelEdit(old(bubbles)[i]) else old(bubbles)[i]
    {
      match Lookup(bubbles, id)
      case None =>
      case Some(b) =>
        var nb := CancelEdit(b);
        SameIdsKeepValid(bubbles, Replace(bubbles, nb), connections);
        SameColorsKeepFound(bubbles, Replace(bubbles, nb));
        bubbles := Replace(bubbles, nb);
    }

    // -------------------------------------------------------------------
    // Export and import

    /** exportData: the document of the current scene; importing it and
        exporting again gives the same document. */
    method ExportData() returns (d: Document)
      requires Valid()
      ensures d == ExportScene(Persistent())
      ensures ExportScene(ImportScene(d)) == d
    {
      d := ExportScene(Persistent());
      RoundTrip(Persistent());
    }

    /** importData: clears the map, adds the document's bubbles in order,
        then its connections through the duplicate check, then zoom and
        translation when present. A bubble whose colour has no entry in the
        colour table makes the colour lookup throw: the import stops there
        (`ok` is false), with the map cleared and marked changed, the
        earlier bubbles kept, no connections and the reset view. */
    method ImportData(doc: Document) returns (ok: bool)
      requires Valid()
      requires DistinctDocIds(doc.bubbles)
      modifies this`bubbles, this`connections, this`zoomLevel, this`translateX, this`translateY,
               this`hasUnsavedChanges
      ensures Valid()
      ensures Persistent() == ImportScene(doc)
      ensures hasUnsavedChanges
      ensures ok <==> KnownPrefix(doc.bubbles) == |doc.bubbles|
    {
      ghost var s := ImportScene(doc);
      ClearAll(false, false);
      ok := AppendImportedBubbles(doc.bubbles);
      if ok {
        AppendImportedConnections(DocIds(doc.bubbles), doc.connections);
        ApplyImportedView(doc.zoom, doc.translate);
      }
      assert Persistent() == s;
    }

    /** The view step of importData: a zoom and a translation present in the
        document replace the current ones (a zero zoom counts as absent). */
    method ApplyImportedView(zoom: Option<real>, translate: Option<Point>)
      modifies this`zoomLevel, this`translateX, this`translateY
      ensures old(Valid()) ==> Valid()
      ensures zoomLevel == if zoom.Some? && zoom.value != 0.0 then zoom.value else old(zoomLevel)
      ensures translateX == if translate.Some? then translate.value.x else old(translateX)
      ensures translateY == if translate.Some? then translate.value.y else old(translateY)
    {
      if zoom.Some? && zoom.value != 0.0 {
        zoomLevel := zoom.value;
      }
      if translate.Some? {
        translateX := translate.value.x;
        translateY := translate.value.y;
      }
    }

    /** The bubble loop of importData: one bubble per record, in order,
        until a record whose colour the colour table lacks (`ok` false). */
    method AppendImportedBubbles(bds: seq<BubbleData>) returns (ok: bool)
      requires bubbles == []
      modifies this`bubbles
      ensures bubbles == ImportBubbles(bds[..KnownPrefix(bds)])
      ensures ok <==> KnownPrefix(bds) == |bds|
    {
      var i := 0;
      while i < |bds|
        invariant 0 <= i <= |bds|
        invariant bubbles == ImportBubbles(bds[..i])
        invariant forall k :: 0 <= k < i ==> ColorFound(bds[k].color)
      {
        if !ColorFound(bds[i].color) {
          return false;
        }
        assert ImportBubbles(bds[..i + 1]) == ImportBubbles(bds[..i]) + [ImportBubble(bds[i])];
        bubbles := bubbles + [ImportBubble(bds[i])];
        i := i + 1;
      }
      assert bds[..i] == bds;
      ok := true;
    }

    /** The connection loop of importData: createConnection for each record
        whose bubbles both exist, then the colour step. */
    method AppendImportedConnections(ids: set<BubbleId>, cds: seq<ConnectionData>)
      requires connections == []
      modifies this`connections
      ensures connections == ImportConnections(ids, cds)
    {
      assert cds[..0] == [];
      var j := 0;
      while j < |cds|
        invariant 0 <= j <= |cds|
        invariant connections == ImportConnections(ids, cds[..j])
      {
        assert cds[..j + 1][..j] == cds[..j];
        connections := ImportStep(connections, ids, cds[j]);
        j := j + 1;
      }
      assert cds[..j] == cds;
    }
  }
}
