/** The in-memory scene of the mind map: bubbles, directed connections
    between them, and the operations that change them as values. The DOM
    elements of the original are abstracted to records keyed by a stable id. */
module Scene {

  datatype Option<T> = None | Some(value: T)

  datatype Point = Point(x: real, y: real)

  type BubbleId = string

  const Solid: string := "solid"
  const Dashed: string := "dashed"

  /** Height assumed for a bubble whose height was never set. */
  const DefaultHeight: real := 40.0
  /** Smallest height a shift-drag can give a bubble. */
  const MinHeight: real := 20.0

  /** The keys of the colour table `colors`. */
  const ColorKeys: set<string> :=
    {"default", "temp", "red", "blue", "green", "yellow", "purple", "orange", "teal", "pink"}

  /** The names every JavaScript object inherits from `Object.prototype`:
      looking one of them up in the colour table yields a value as well. */
  const InheritedNames: set<string> :=
    {"constructor", "__proto__", "__defineGetter__", "__defineSetter__", "__lookupGetter__",
     "__lookupSetter__", "hasOwnProperty", "isPrototypeOf", "propertyIsEnumerable",
     "toString", "toLocaleString", "valueOf"}

  /** `colors[color]` is an object, so reading a field of it (as
      `applyBubbleColor` does) does not throw. */
  predicate ColorFound(color: string) {
    color in ColorKeys || color in InheritedNames
  }

  /** A bubble. `editing` is `Some(original)` while its label is being edited:
      it holds the text the editor will restore on abort. */
  datatype Bubble = Bubble(
    id: BubbleId,
    text: string,
    color: string,
    left: real,
    top: real,
    height: Option<real>,
    editing: Option<string>)

  /** A connection from `start` to `end`; `customColor` pins its colour. */
  datatype Connection = Connection(
    start: BubbleId,
    end: BubbleId,
    lineType: string,
    customColor: Option<string>)

  /** The persistent part of a mind map: what is exported and imported. */
  datatype SceneState = SceneState(
    bubbles: seq<Bubble>,
    connections: seq<Connection>,
    zoomLevel: real,
    translateX: real,
    translateY: real)

  predicate Distinct<T(==)>(s: seq<T>) {
    forall i, j :: 0 <= i < j < |s| ==> s[i] != s[j]
  }

  function Ids(bs: seq<Bubble>): set<BubbleId> {
    set b | b in bs :: b.id
  }

  predicate DistinctIds(bs: seq<Bubble>) {
    forall i, j :: 0 <= i < j < |bs| ==> bs[i].id != bs[j].id
  }

  predicate Touches(c: Connection, id: BubbleId) {
    c.start == id || c.end == id
  }

  /** `c` joins `a` and `b`, in either direction. */
  predicate SamePair(c: Connection, a: BubbleId, b: BubbleId) {
    (c.start == a && c.end == b) || (c.start == b && c.end == a)
  }

  predicate HasPair(cs: seq<Connection>, a: BubbleId, b: BubbleId) {
    exists c :: c in cs && SamePair(c, a, b)
  }

  /** No two connections join the same unordered pair of bubbles. */
  predicate NoDuplicatePairs(cs: seq<Connection>) {
    forall i, j :: 0 <= i < j < |cs| ==> !SamePair(cs[j], cs[i].start, cs[i].end)
  }

  /** Every connection joins two bubbles of the scene. */
  predicate EndpointsLive(bs: seq<Bubble>, cs: seq<Connection>) {
    forall c :: c in cs ==> c.start in Ids(bs) && c.end in Ids(bs)
  }

  predicate SceneValid(bs: seq<Bubble>, cs: seq<Connection>) {
    DistinctIds(bs) && NoDuplicatePairs(cs) && EndpointsLive(bs, cs)
  }

  /** Every bubble carries a colour the colour table has an entry for. */
  predicate ColorsFound(bs: seq<Bubble>) {
    forall b :: b in bs ==> ColorFound(b.color)
  }

  function Lookup(bs: seq<Bubble>, id: BubbleId): (r: Option<Bubble>)
    ensures r.Some? ==> r.value in bs && r.value.id == id
    ensures r.None? <==> id !in Ids(bs)
  {
    if bs == [] then None
    else if bs[0].id == id then Some(bs[0])
    else
      assert Ids(bs) == {bs[0].id} + Ids(bs[1..]) by {
        assert forall b :: b in bs <==> b == bs[0] || b in bs[1..];
      }
      Lookup(bs[1..], id)
  }

  /** Two bubble lists whose ids agree position by position have the same
      ids, and one is valid with a connection list exactly when the other is. */
  lemma {:induction false} SameIdsKeepValid(bs: seq<Bubble>, bs': seq<Bubble>, cs: seq<Connection>)
    requires |bs'| == |bs|
    requires forall i :: 0 <= i < |bs| ==> bs'[i].id == bs[i].id
    ensures Ids(bs') == Ids(bs)
    ensures SceneValid(bs', cs) <==> SceneValid(bs, cs)
  {
    forall x | x in Ids(bs) ensures x in Ids(bs') {
      var b :| b in bs && b.id == x;
      var i :| 0 <= i < |bs| && bs[i] == b;
      assert bs'[i] in bs';
    }
    forall x | x in Ids(bs') ensures x in Ids(bs) {
      var b :| b in bs' && b.id == x;
      var i :| 0 <= i < |bs'| && bs'[i] == b;
      assert bs[i] in bs;
    }
  }

  /** Two bubble lists whose colours agree position by position: all colours
      of one are in the colour table exactly when those of the other are. */
  lemma SameColorsKeepFound(bs: seq<Bubble>, bs': seq<Bubble>)
    requires |bs'| == |bs|
    requires forall i :: 0 <= i < |bs| ==> bs'[i].color == bs[i].color
    ensures ColorsFound(bs') <==> ColorsFound(bs)
  {
    if ColorsFound(bs) {
      forall b | b in bs' ensures ColorFound(b.color) {
        var i :| 0 <= i < |bs'| && bs'[i] == b;
        assert bs[i] in bs;
      }
    }
    if ColorsFound(bs') {
      forall b | b in bs ensures ColorFound(b.color) {
        var i :| 0 <= i < |bs| && bs[i] == b;
        assert bs'[i] in bs';
      }
    }
  }

  // ---------------------------------------------------------------------
  // Connections

  /** createConnection: a connection is appended only when its bubbles are
      not already joined in either direction. */
  function AddConnection(cs: seq<Connection>, a: BubbleId, b: BubbleId, lineType: string): (r: seq<Connection>)
    ensures HasPair(r, a, b)
    ensures |cs| <= |r| <= |cs| + 1 && r[..|cs|] == cs
    ensures |r| == |cs| + 1 <==> !HasPair(cs, a, b)
    ensures |r| == |cs| + 1 ==> r[|cs|] == Connection(a, b, lineType, None)
    ensures NoDuplicatePairs(cs) ==> NoDuplicatePairs(r)
  {
    if HasPair(cs, a, b) then cs
    else
      var r := cs + [Connection(a, b, lineType, None)];
      assert r[|cs|] in r;
      assert NoDuplicatePairs(cs) ==> NoDuplicatePairs(r) by {
        if NoDuplicatePairs(cs) {
          forall i, j | 0 <= i < j < |r| ensures !SamePair(r[j], r[i].start, r[i].end) {
            if j == |cs| {
              assert r[i] in cs;
            }
          }
        }
      }
      r
  }

  /** Adding a connection and then either orientation of it again adds nothing
      the second time. */
  lemma {:induction false} AddConnectionIdempotent(cs: seq<Connection>, a: BubbleId, b: BubbleId, lt1: string, lt2: string)
    ensures AddConnection(AddConnection(cs, a, b, lt1), a, b, lt2) == AddConnection(cs, a, b, lt1)
    ensures AddConnection(AddConnection(cs, a, b, lt1), b, a, lt2) == AddConnection(cs, a, b, lt1)
  {
    var r := AddConnection(cs, a, b, lt1);
    var c :| c in r && SamePair(c, a, b);
    assert SamePair(c, b, a);
  }

  /** The filter of deleteBubble over the connections. */
  function RemoveTouching(cs: seq<Connection>, id: BubbleId): (r: seq<Connection>)
    ensures forall c :: c in r <==> c in cs && !Touches(c, id)
    ensures |r| <= |cs|
    ensures (forall c :: c in cs ==> !Touches(c, id)) ==> r == cs
  {
    if cs == [] then []
    else (if Touches(cs[0], id) then [] else [cs[0]]) + RemoveTouching(cs[1..], id)
  }

  /** The tail of a duplicate-free list is duplicate-free and does not
      repeat the head's pair. */
  lemma TailNoDuplicates(cs: seq<Connection>)
    requires cs != [] && NoDuplicatePairs(cs)
    ensures NoDuplicatePairs(cs[1..])
    ensures forall y :: y in cs[1..] ==> !SamePair(y, cs[0].start, cs[0].end)
  {
    forall i, j | 0 <= i < j < |cs[1..]|
      ensures !SamePair(cs[1..][j], cs[1..][i].start, cs[1..][i].end)
    {
      assert cs[1..][i] == cs[i + 1] && cs[1..][j] == cs[j + 1];
    }
    forall y | y in cs[1..] ensures !SamePair(y, cs[0].start, cs[0].end) {
      var k :| 0 <= k < |cs[1..]| && cs[1..][k] == y;
      assert cs[k + 1] == y;
    }
  }

  /** A connection whose pair is not in a duplicate-free list can head it. */
  lemma ConsNoDuplicates(x: Connection, rest: seq<Connection>)
    requires NoDuplicatePairs(rest)
    requires forall y :: y in rest ==> !SamePair(y, x.start, x.end)
    ensures NoDuplicatePairs([x] + rest)
  {
    var r := [x] + rest;
    forall i, j | 0 <= i < j < |r| ensures !SamePair(r[j], r[i].start, r[i].end) {
      if i == 0 {
        assert r[j] in rest;
      } else {
        assert r[i] == rest[i - 1] && r[j] == rest[j - 1];
      }
    }
  }

  lemma {:induction false} RemoveTouchingNoDuplicates(cs: seq<Connection>, id: BubbleId)
    requires NoDuplicatePairs(cs)
    ensures NoDuplicatePairs(RemoveTouching(cs, id))
  {
    if cs != [] {
      TailNoDuplicates(cs);
      RemoveTouchingNoDuplicates(cs[1..], id);
      if !Touches(cs[0], id) {
        ConsNoDuplicates(cs[0], RemoveTouching(cs[1..], id));
      }
    }
  }

  /** The filter of deleteBubble over the bubbles. */
  function RemoveBubble(bs: seq<Bubble>, id: BubbleId): (r: seq<Bubble>)
    ensures forall b :: b in r <==> b in bs && b.id != id
    ensures Ids(r) == Ids(bs) - {id}
  {
    if bs == [] then []
    else (if bs[0].id == id then [] else [bs[0]]) + RemoveBubble(bs[1..], id)
  }

  /** The tail of a list of bubbles with distinct ids has distinct ids
      and does not repeat the head's id. */
  lemma TailDistinct(bs: seq<Bubble>)
    requires bs != [] && DistinctIds(bs)
    ensures DistinctIds(bs[1..])
    ensures bs[0].id !in Ids(bs[1..])
  {
    forall i, j | 0 <= i < j < |bs[1..]| ensures bs[1..][i].id != bs[1..][j].id {
      assert bs[1..][i] == bs[i + 1] && bs[1..][j] == bs[j + 1];
    }
    forall y | y in bs[1..] ensures y.id != bs[0].id {
      var k :| 0 <= k < |bs[1..]| && bs[1..][k] == y;
      assert bs[k + 1] == y;
    }
  }

  /** A bubble whose id is new can head a list of bubbles with distinct ids. */
  lemma ConsDistinct(x: Bubble, rest: seq<Bubble>)
    requires DistinctIds(rest) && x.id !in Ids(rest)
    ensures DistinctIds([x] + rest)
  {
    var r := [x] + rest;
    forall i, j | 0 <= i < j < |r| ensures r[i].id != r[j].id {
      if i == 0 {
        assert r[j] in rest;
      } else {
        assert r[i] == rest[i - 1] && r[j] == rest[j - 1];
      }
    }
  }

  lemma {:induction false} RemoveBubbleDistinct(bs: seq<Bubble>, id: BubbleId)
    requires DistinctIds(bs)
    ensures DistinctIds(RemoveBubble(bs, id))
  {
    if bs != [] {
      TailDistinct(bs);
      RemoveBubbleDistinct(bs[1..], id);
      if bs[0].id != id {
        ConsDistinct(bs[0], RemoveBubble(bs[1..], id));
      }
    }
  }

  /** deleteBubble removes the bubble and every connection touching it and
      keeps the scene valid. */
  lemma DeleteKeepsValid(bs: seq<Bubble>, cs: seq<Connection>, id: BubbleId)
    requires SceneValid(bs, cs)
    ensures SceneValid(RemoveBubble(bs, id), RemoveTouching(cs, id))
    ensures id !in Ids(RemoveBubble(bs, id))
    ensures forall c :: c in RemoveTouching(cs, id) ==> !Touches(c, id)
    ensures ColorsFound(bs) ==> ColorsFound(RemoveBubble(bs, id))
  {
    RemoveTouchingNoDuplicates(cs, id);
    RemoveBubbleDistinct(bs, id);
  }

  /** The connection filter works element by element: it distributes over
      concatenation, so the surviving connections keep their order. */
  lemma ConcatAssoc<T>(a: seq<T>, b: seq<T>, c: seq<T>)
    ensures a + (b + c) == (a + b) + c
  {
  }

  lemma SplitHead<T>(s1: seq<T>, s2: seq<T>)
    requires s1 != []
    ensures s1 == [s1[0]] + s1[1..] && s1 + s2 == [s1[0]] + (s1[1..] + s2)
  {
  }

  lemma RemoveTouchingCons(x: Connection, t: seq<Connection>, id: BubbleId)
    ensures RemoveTouching([x] + t, id) == RemoveTouching([x], id) + RemoveTouching(t, id)
  {
    assert ([x] + t)[1..] == t;
    assert [x][1..] == [];
  }

  lemma {:induction false} RemoveTouchingAppend(cs1: seq<Connection>, cs2: seq<Connection>, id: BubbleId)
    ensures RemoveTouching(cs1 + cs2, id) == RemoveTouching(cs1, id) + RemoveTouching(cs2, id)
  {
    if cs1 == [] {
      assert cs1 + cs2 == cs2;
    } else {
      var x, t := cs1[0], cs1[1..];
      SplitHead(cs1, cs2);
      RemoveTouchingCons(x, t + cs2, id);
      RemoveTouchingAppend(t, cs2, id);
      RemoveTouchingCons(x, t, id);
      ConcatAssoc(RemoveTouching([x], id), RemoveTouching(t, id), RemoveTouching(cs2, id));
    }
  }

  /** The bubble filter distributes over concatenation too: the surviving
      bubbles keep their order. */
  lemma RemoveBubbleCons(x: Bubble, t: seq<Bubble>, id: BubbleId)
    ensures RemoveBubble([x] + t, id) == RemoveBubble([x], id) + RemoveBubble(t, id)
  {
    assert ([x] + t)[1..] == t;
    assert [x][1..] == [];
  }

  lemma {:induction false} RemoveBubbleAppend(bs1: seq<Bubble>, bs2: seq<Bubble>, id: BubbleId)
    ensures RemoveBubble(bs1 + bs2, id) == RemoveBubble(bs1, id) + RemoveBubble(bs2, id)
  {
    if bs1 == [] {
      assert bs1 + bs2 == bs2;
    } else {
      var x, t := bs1[0], bs1[1..];
      SplitHead(bs1, bs2);
      RemoveBubbleCons(x, t + bs2, id);
      RemoveBubbleAppend(t, bs2, id);
      RemoveBubbleCons(x, t, id);
      ConcatAssoc(RemoveBubble([x], id), RemoveBubble(t, id), RemoveBubble(bs2, id));
    }
  }

  /** The filter of deleteConnection: drops the given connection. */
  function RemoveConnection(cs: seq<Connection>, c: Connection): (r: seq<Connection>)
    ensures forall x :: x in r <==> x in cs && x != c
    ensures |r| <= |cs|
  {
    if cs == [] then []
    else (if cs[0] == c then [] else [cs[0]]) + RemoveConnection(cs[1..], c)
  }

  lemma {:induction false} RemoveConnectionNoDuplicates(cs: seq<Connection>, c: Connection)
    requires NoDuplicatePairs(cs)
    ensures NoDuplicatePairs(RemoveConnection(cs, c))
  {
    if cs != [] {
      TailNoDuplicates(cs);
      RemoveConnectionNoDuplicates(cs[1..], c);
      if cs[0] != c {
        ConsNoDuplicates(cs[0], RemoveConnection(cs[1..], c));
      }
    }
  }

  /** deleteConnection keeps the scene valid. */
  lemma RemoveConnectionKeepsValid(bs: seq<Bubble>, cs: seq<Connection>, c: Connection)
    requires SceneValid(bs, cs)
    ensures SceneValid(bs, RemoveConnection(cs, c))
  {
    RemoveConnectionNoDuplicates(cs, c);
  }

  /** The colour pinning of changeBubbleColor: every connection ending at
      `id` gets `color` as its custom colour. */
  function PinIncoming(cs: seq<Connection>, id: BubbleId, color: string): (r: seq<Connection>)
    ensures |r| == |cs|
    ensures forall i :: 0 <= i < |cs| ==> r[i] == cs[i].(customColor := r[i].customColor)
    ensures forall i :: 0 <= i < |cs| ==> (r[i].customColor != cs[i].customColor ==> cs[i].end == id)
    ensures forall i :: 0 <= i < |cs| && cs[i].end == id ==> r[i].customColor == Some(color)
  {
    seq(|cs|, i requires 0 <= i < |cs| =>
      if cs[i].end == id then cs[i].(customColor := Some(color)) else cs[i])
  }

  /** Pinning changes colours only: every connection keeps its bubbles and
      line type, exactly the incoming ones are pinned, and validity is kept. */
  lemma PinIncomingKeepsValid(bs: seq<Bubble>, cs: seq<Connection>, id: BubbleId, color: string)
    requires SceneValid(bs, cs)
    ensures |PinIncoming(cs, id, color)| == |cs|
    ensures forall i :: 0 <= i < |cs| ==>
      var c := PinIncoming(cs, id, color)[i];
      c.start == cs[i].start && c.end == cs[i].end && c.lineType == cs[i].lineType &&
      (c.customColor == if cs[i].end == id then Some(color) else cs[i].customColor)
    ensures SceneValid(bs, PinIncoming(cs, id, color))
  {
    var r := PinIncoming(cs, id, color);
    forall c | c in r ensures c.start in Ids(bs) && c.end in Ids(bs) {
      var i :| 0 <= i < |r| && r[i] == c;
      assert cs[i] in cs;
    }
  }

  // ---------------------------------------------------------------------
  // Bubbles

  function Shifted(b: Bubble, dx: real, dy: real): Bubble {
    b.(left := b.left + dx, top := b.top + dy)
  }

  /** Every bubble whose id is in `ids` moves by (dx, dy). */
  function MoveBy(bs: seq<Bubble>, ids: set<BubbleId>, dx: real, dy: real): (r: seq<Bubble>)
  {
    seq(|bs|, i requires 0 <= i < |bs| => if bs[i].id in ids then Shifted(bs[i], dx, dy) else bs[i])
  }

  /** Moving by a set and then by one more bubble id is moving by the larger set. */
  lemma MoveByOneMore(bs: seq<Bubble>, ids: set<BubbleId>, x: BubbleId, dx: real, dy: real)
    requires x !in ids
    ensures MoveBy(MoveBy(bs, ids, dx, dy), {x}, dx, dy) == MoveBy(bs, ids + {x}, dx, dy)
  {
  }

  lemma MoveByKeepsValid(bs: seq<Bubble>, cs: seq<Connection>, ids: set<BubbleId>, dx: real, dy: real)
    requires SceneValid(bs, cs)
    ensures Ids(MoveBy(bs, ids, dx, dy)) == Ids(bs)
    ensures SceneValid(MoveBy(bs, ids, dx, dy), cs)
    ensures ColorsFound(MoveBy(bs, ids, dx, dy)) <==> ColorsFound(bs)
  {
    SameIdsKeepValid(bs, MoveBy(bs, ids, dx, dy), cs);
    SameColorsKeepFound(bs, MoveBy(bs, ids, dx, dy));
  }

  /** The height `parseFloat(style.height) || 40`: an unset (or zero) height counts as 40. */
  function CurrentHeight(h: Option<real>): real {
    if h.Some? && h.value != 0.0 then h.value else DefaultHeight
  }

  /** Shift-drag resize by a vertical cursor movement `deltaY` (positive when
      the cursor moved up). */
  function Resized(b: Bubble, deltaY: real): (r: Bubble)
    ensures r.height.Some? && r.height.value >= MinHeight
    ensures r.height.value == CurrentHeight(b.height) + deltaY || r.height.value == MinHeight
    ensures r.height.value >= CurrentHeight(b.height) + deltaY
    ensures r.top + r.height.value / 2.0 == b.top + CurrentHeight(b.height) / 2.0
    ensures r == b.(height := r.height, top := r.top)
  {
    var current := CurrentHeight(b.height);
    var newHeight := if current + deltaY > MinHeight then current + deltaY else MinHeight;
    b.(height := Some(newHeight), top := b.top - (newHeight - current) / 2.0)
  }

  /** Shift-drag resize of the bubble `id`: only its height and top change,
      its height is at least the minimum and its vertical centre stays. */
  function ResizeAt(bs: seq<Bubble>, id: BubbleId, deltaY: real): (r: seq<Bubble>)
    ensures |r| == |bs|
    ensures forall i :: 0 <= i < |bs| ==> r[i] == bs[i].(height := r[i].height, top := r[i].top)
    ensures forall i :: 0 <= i < |bs| && bs[i].id != id ==> r[i] == bs[i]
    ensures forall i :: 0 <= i < |bs| && bs[i].id == id ==>
      r[i].height.Some? && r[i].height.value >= MinHeight &&
      r[i].top + r[i].height.value / 2.0 == bs[i].top + CurrentHeight(bs[i].height) / 2.0
  {
    seq(|bs|, i requires 0 <= i < |bs| => if bs[i].id == id then Resized(bs[i], deltaY) else bs[i])
  }

  function Recolor(bs: seq<Bubble>, id: BubbleId, color: string): seq<Bubble> {
    seq(|bs|, i requires 0 <= i < |bs| => if bs[i].id == id then bs[i].(color := color) else bs[i])
  }

  /** Recolouring with a colour of the table keeps every colour in the table. */
  lemma RecolorKeepsFound(bs: seq<Bubble>, id: BubbleId, color: string)
    requires ColorsFound(bs) && ColorFound(color)
    ensures ColorsFound(Recolor(bs, id, color))
  {
    var r := Recolor(bs, id, color);
    forall b | b in r ensures ColorFound(b.color) {
      var i :| 0 <= i < |r| && r[i] == b;
      assert bs[i] in bs;
    }
  }

  /** Replaces the bubble carrying `nb`'s id by `nb`. */
  function Replace(bs: seq<Bubble>, nb: Bubble): seq<Bubble> {
    seq(|bs|, i requires 0 <= i < |bs| => if bs[i].id == nb.id then nb else bs[i])
  }

  predicate AnyEditing(bs: seq<Bubble>) {
    exists b :: b in bs && b.editing.Some?
  }

  // ---------------------------------------------------------------------
  // Label editing

  /** The commit rule of a label edit: empty input keeps the text the bubble
      had when editing began. */
  function CommitText(input: string, original: string): (r: string)
    ensures r == input || r == original
    ensures r == "" <==> input == "" && original == ""
    ensures input != "" ==> r == input
  {
    if input == "" then original else input
  }

  function BeginEdit(b: Bubble): Bubble {
    if b.editing.Some? then b else b.(editing := Some(b.text), text := "")
  }

  function FinishEdit(b: Bubble, input: string): Bubble {
    match b.editing
    case Some(original) => b.(text := CommitText(input, original), editing := None)
    case None => b
  }

  function CancelEdit(b: Bubble): Bubble {
    match b.editing
    case Some(original) => b.(text := original, editing := None)
    case None => b
  }

  /** Beginning an edit and aborting it restores the bubble; committing the
      empty input restores it too, and committing text sets exactly that text. */
  lemma EditRoundTrips(b: Bubble, input: string)
    requires b.editing.None?
    ensures CancelEdit(BeginEdit(b)) == b
    ensures FinishEdit(BeginEdit(b), "") == b
    ensures input != "" ==> FinishEdit(BeginEdit(b), input) == b.(text := input)
  {
  }
}
