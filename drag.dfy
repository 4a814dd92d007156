/** What one cursor move does to the bubbles while a bubble is dragged
    without shift: the dragged bubble goes to the cursor position and, with
    space held, its descendants follow by the same displacement. */
module Drag {
  import opened Scene
  import opened Reach

  /** The bubbles that follow the dragged bubble `t`. */
  ghost function Followers(cs: seq<Connection>, t: BubbleId, withSubtree: bool): set<BubbleId> {
    if withSubtree then Descendants(cs, t) else {}
  }

  /** The ids among the first `n` entries of a list. */
  ghost function Listed(ids: seq<BubbleId>, n: nat): set<BubbleId>
    requires n <= |ids|
  {
    set k | 0 <= k < n :: ids[k]
  }

  /** A list holding exactly the followers, as getChildBubbles returns them,
      lists the follower set. */
  lemma ListedFollowers(cs: seq<Connection>, t: BubbleId, withSubtree: bool, children: seq<BubbleId>)
    requires withSubtree ==> forall y :: y in children <==> y in Descendants(cs, t)
    requires !withSubtree ==> children == []
    ensures Listed(children, |children|) == Followers(cs, t, withSubtree)
  {
    forall y | y in Followers(cs, t, withSubtree) ensures y in Listed(children, |children|) {
      var k :| 0 <= k < |children| && children[k] == y;
    }
  }

  /** One drag step of `t`, found in the scene as `b`, to canvas position
      `p`: the displacement is taken from `b`'s position; the followers are
      shifted after `t` has been placed. */
  ghost function DragFrom(bs: seq<Bubble>, cs: seq<Connection>, t: BubbleId, b: Bubble, p: Point, withSubtree: bool): seq<Bubble> {
    MoveBy(MoveBy(bs, {t}, p.x - b.left, p.y - b.top), Followers(cs, t, withSubtree), p.x - b.left, p.y - b.top)
  }

  /** A drag step keeps the scene valid and every colour in the colour
      table. */
  lemma DragFromKeepsValid(bs: seq<Bubble>, cs: seq<Connection>, t: BubbleId, b: Bubble, p: Point, withSubtree: bool)
    requires SceneValid(bs, cs) && ColorsFound(bs)
    ensures SceneValid(DragFrom(bs, cs, t, b, p, withSubtree), cs)
    ensures ColorsFound(DragFrom(bs, cs, t, b, p, withSubtree))
  {
    var dx, dy := p.x - b.left, p.y - b.top;
    MoveByKeepsValid(bs, cs, {t}, dx, dy);
    MoveByKeepsValid(MoveBy(bs, {t}, dx, dy), cs, Followers(cs, t, withSubtree), dx, dy);
  }

  /** One drag step of `t` to canvas position `p`. A bubble that is no
      longer in the scene moves nothing. */
  ghost function DragMove(bs: seq<Bubble>, cs: seq<Connection>, t: BubbleId, p: Point, withSubtree: bool): (r: seq<Bubble>)
    ensures |r| == |bs|
    ensures forall i :: 0 <= i < |bs| ==> r[i] == bs[i].(left := r[i].left, top := r[i].top)
  {
    match Lookup(bs, t)
    case None => bs
    case Some(b) => DragFrom(bs, cs, t, b, p, withSubtree)
  }

  /** What a drag step does to each bubble: only positions change; the
      dragged bubble lands on `p`, unless it lies on a cycle, where it is
      shifted a second time and overshoots by the displacement; every
      other follower moves by the displacement, so it keeps its offset to
      the dragged bubble unless the dragged bubble is on a cycle; every
      other bubble stays put. */
  lemma DragMoveEffect(bs: seq<Bubble>, cs: seq<Connection>, t: BubbleId, p: Point, withSubtree: bool)
    requires DistinctIds(bs)
    ensures var r := DragMove(bs, cs, t, p, withSubtree);
      && |r| == |bs|
      && (forall i :: 0 <= i < |bs| ==> r[i] == bs[i].(left := r[i].left, top := r[i].top))
      && (t !in Ids(bs) ==> r == bs)
      && (forall i :: 0 <= i < |bs| && bs[i].id == t && t !in Followers(cs, t, withSubtree) ==>
            r[i].left == p.x && r[i].top == p.y)
      && (forall i :: 0 <= i < |bs| && bs[i].id == t && t in Followers(cs, t, withSubtree) ==>
            r[i].left == p.x + (p.x - bs[i].left) && r[i].top == p.y + (p.y - bs[i].top))
      && (forall i :: 0 <= i < |bs| && bs[i].id != t && bs[i].id !in Followers(cs, t, withSubtree) ==>
            r[i] == bs[i])
      && (forall i, j ::
            (0 <= i < |bs| && 0 <= j < |bs| && bs[i].id == t && t !in Followers(cs, t, withSubtree) &&
             bs[j].id in Followers(cs, t, withSubtree)) ==>
            r[j].left - r[i].left == bs[j].left - bs[i].left && r[j].top - r[i].top == bs[j].top - bs[i].top)
      && (forall i, j ::
            (0 <= i < |bs| && 0 <= j < |bs| && bs[i].id == t && bs[j].id != t &&
             bs[j].id in Followers(cs, t, withSubtree)) ==>
            r[j].left == bs[j].left + (p.x - bs[i].left) && r[j].top == bs[j].top + (p.y - bs[i].top))
  {
    match Lookup(bs, t)
    case None =>
    case Some(b) =>
      assert forall i :: 0 <= i < |bs| && bs[i].id == t ==> bs[i] == b;
  }
}
