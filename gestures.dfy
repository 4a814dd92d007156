/** The pure parts of the gesture controller: mouse-down dispatch, key
    decoding, line-type toggling, the screen/canvas mapping, and the
    commit rule applied when a connecting gesture is released. */
module Gestures {
  import opened Scene

  /** A mouse event. `target` is the bubble under the cursor, if any
      (`e.target.closest(".bubble")`). Buttons: 0 left, 1 middle, 2 right. */
  datatype MouseEvent = MouseEvent(
    button: int,
    ctrlKey: bool,
    shiftKey: bool,
    clientX: real,
    clientY: real,
    target: Option<BubbleId>)

  datatype KeyEvent = KeyEvent(key: string, code: string)

  /** What handleMouseDown does with an event. */
  datatype Action =
    | StartPan
    | DeleteTarget
    | RecolorTarget
    | StartConnect
    | NewBubbleAt
    | ToggleLine
    | StartDrag
    | Ignore

  /** The priority order of handleMouseDown. `targetEditing` says whether the
      bubble under the cursor is being edited. Each action is characterised
      below without reference to the order in which the source tests them. */
  function MouseDownAction(e: MouseEvent, isConnecting: bool, targetEditing: bool): (a: Action)
    ensures a == StartPan <==> e.button == 0 && !e.ctrlKey && e.target.None?
    ensures a == DeleteTarget <==> e.target.Some? && (e.button == 1 || (e.button == 2 && e.ctrlKey))
    ensures a == RecolorTarget <==> e.target.Some? && e.button == 2 && e.shiftKey && !e.ctrlKey
    ensures a == StartConnect <==>
      e.target.Some? && ((e.button == 2 && !e.ctrlKey && !e.shiftKey) || (e.button == 0 && e.ctrlKey))
    ensures a == NewBubbleAt <==> e.target.None? && e.button == 2
    ensures a == ToggleLine <==> isConnecting && e.button == 0 && !e.ctrlKey && e.target.Some?
    ensures a == StartDrag <==>
      !isConnecting && e.button == 0 && !e.ctrlKey && e.target.Some? && !targetEditing
  {
    if e.button == 0 && !e.ctrlKey && e.target.None? then StartPan
    else if ((e.ctrlKey && e.button == 2) || e.button == 1) && e.target.Some? then DeleteTarget
    else if e.button == 2 && e.shiftKey && e.target.Some? then RecolorTarget
    else if e.button == 2 || (e.ctrlKey && e.button == 0) then
      if e.target.Some? then StartConnect
      else if e.button == 2 then NewBubbleAt
      else Ignore
    else if e.button == 0 && isConnecting then ToggleLine
    else if e.button == 0 && e.target.Some? && !targetEditing then StartDrag
    else Ignore
  }

  /** `currentLineType === "solid" ? "dashed" : "solid"`. */
  function Toggled(t: string): (r: string)
    ensures r == Solid || r == Dashed
    ensures r != t
  {
    if t == Solid then Dashed else Solid
  }

  /** Toggling twice restores either line type. */
  lemma ToggleTwice(t: string)
    requires t == Solid || t == Dashed
    ensures Toggled(Toggled(t)) == t
  {
  }

  predicate IsDigit(ch: char) {
    '0' <= ch <= '9'
  }

  /** The value of the run of decimal digits at the start of `s`, read
      left to right onto `acc`. */
  function DigitRun(s: string, acc: nat): nat
    decreases |s|
  {
    if s == [] || !IsDigit(s[0]) then acc
    else DigitRun(s[1..], acc * 10 + (s[0] as int - '0' as int))
  }

  /** `parseInt(e.key)` for key names: the leading decimal digits, or none
      (`NaN`) when the key does not start with a digit. */
  function ParseKeyNumber(key: string): (r: Option<nat>)
    ensures r.Some? <==> |key| > 0 && IsDigit(key[0])
    ensures |key| == 1 && r.Some? ==> r.value == key[0] as int - '0' as int
  {
    if |key| > 0 && IsDigit(key[0]) then
      assert |key| == 1 ==> DigitRun(key, 0) == DigitRun(key[1..], key[0] as int - '0' as int) == key[0] as int - '0' as int;
      Some(DigitRun(key, 0))
    else None
  }

  /** The palette colour a key selects: keys 1 to 9 pick the option at that
      position, when the palette has one. */
  function KeyColor(key: string, palette: seq<string>): (r: Option<string>)
    ensures r.Some? ==> r.value in palette
    ensures |key| == 1 ==> (r.Some? <==> '1' <= key[0] <= '9' && key[0] as int - '1' as int < |palette|)
    ensures |key| == 1 && '1' <= key[0] <= '9' && (key[0] as int - '1' as int) < |palette| ==>
      r == Some(palette[key[0] as int - '1' as int])
    ensures |key| == 0 || !IsDigit(key[0]) ==> r.None?
  {
    match ParseKeyNumber(key)
    case Some(n) => if 1 <= n <= 9 && n - 1 < |palette| then Some(palette[n - 1]) else None
    case None => None
  }

  predicate IsSpace(e: KeyEvent) {
    e.key == " " || e.code == "Space"
  }

  /** screenToCanvas, with the canvas's client rectangle origin given. It
      undoes the content transform: the canvas point it returns is drawn
      exactly under the screen point it was given. */
  function ScreenToCanvas(p: Point, origin: Point, tx: real, ty: real, zoom: real): (c: Point)
    requires zoom != 0.0
    ensures CanvasToScreen(c, origin, tx, ty, zoom) == p
  {
    var x, y := (p.x - origin.x - tx) / zoom, (p.y - origin.y - ty) / zoom;
    assert x * zoom + tx + origin.x == p.x;
    assert y * zoom + ty + origin.y == p.y;
    Point(x, y)
  }

  /** Where the transform `translate(tx, ty) scale(zoom)` of the canvas
      content draws a canvas point (scaling about the content's top-left). */
  function CanvasToScreen(c: Point, origin: Point, tx: real, ty: real, zoom: real): Point {
    Point(c.x * zoom + tx + origin.x, c.y * zoom + ty + origin.y)
  }

  lemma CanvasRoundTrip(c: Point, origin: Point, tx: real, ty: real, zoom: real)
    requires zoom != 0.0
    ensures ScreenToCanvas(CanvasToScreen(c, origin, tx, ty, zoom), origin, tx, ty, zoom) == c
  {
  }

  // ---------------------------------------------------------------------
  // Releasing a connecting gesture

  /** handleMouseUp while connecting, AS WRITTEN: the connection is created
      whenever the release target is a bubble other than the start, even if
      the start bubble has been deleted since the gesture began. */
  function ReleaseAsWritten(cs: seq<Connection>, start: BubbleId, target: Option<BubbleId>, lineType: string): (r: seq<Connection>)
    ensures r == cs || (target.Some? && target.value != start)
    ensures target.Some? && target.value != start ==> HasPair(r, start, target.value)
  {
    if target.Some? && target.value != start then AddConnection(cs, start, target.value, lineType) else cs
  }

  /** Counterexample: right-press on bubble a starts connecting; a
      middle-press on a deletes it; releasing over b then creates a -> b,
      a connection to a bubble that no longer exists. */
  lemma ReleaseAsWrittenLeavesDangling()
    ensures
      var bs := RemoveBubble([Bubble("a", "Idea", "default", 0.0, 0.0, None, None),
                              Bubble("b", "Idea", "default", 0.0, 0.0, None, None)], "a");
      var cs := ReleaseAsWritten([], "a", Some("b"), Solid);
      !EndpointsLive(bs, cs)
  {
    var bs := RemoveBubble([Bubble("a", "Idea", "default", 0.0, 0.0, None, None),
                            Bubble("b", "Idea", "default", 0.0, 0.0, None, None)], "a");
    var cs := ReleaseAsWritten([], "a", Some("b"), Solid);
    assert cs[0] in cs && cs[0].start == "a";
    assert "a" !in Ids(bs);
  }

  /** handleMouseUp while connecting, corrected: the connection is created
      only when the start bubble is still part of the scene. */
  function Release(bs: seq<Bubble>, cs: seq<Connection>, start: BubbleId, target: Option<BubbleId>, lineType: string): (r: seq<Connection>)
    requires target.Some? ==> target.value in Ids(bs)
    ensures SceneValid(bs, cs) ==> SceneValid(bs, r)
    ensures r == cs || (target.Some? && target.value != start && start in Ids(bs))
    ensures target.Some? && target.value != start && start in Ids(bs) ==>
      r == AddConnection(cs, start, target.value, lineType) && HasPair(r, start, target.value)
  {
    if target.Some? && target.value != start && start in Ids(bs) then
      var r := AddConnection(cs, start, target.value, lineType);
      assert forall c :: c in r ==> c in cs || c == Connection(start, target.value, lineType, None);
      r
    else cs
  }
}
