/** Directed reachability along connections (start -> end) and the
    depth-first traversal behind getChildBubbles. */
module Reach {
  import opened Scene

  ghost predicate Edge(cs: seq<Connection>, a: BubbleId, b: BubbleId) {
    exists c :: c in cs && c.start == a && c.end == b
  }

  /** A walk of one or more connections, each from one element of `p` to the next. */
  ghost predicate IsPath(cs: seq<Connection>, p: seq<BubbleId>) {
    |p| >= 2 && forall i :: 0 <= i < |p| - 1 ==> Edge(cs, p[i], p[i + 1])
  }

  /** `b` can be reached from `a` along one or more connections. */
  ghost predicate Reachable(cs: seq<Connection>, a: BubbleId, b: BubbleId) {
    exists p :: IsPath(cs, p) && p[0] == a && p[|p| - 1] == b
  }

  function EndIds(cs: seq<Connection>): set<BubbleId> {
    set c | c in cs :: c.end
  }

  /** The descendant set of `a`: every bubble reachable from it. It contains
      `a` itself exactly when `a` lies on a cycle. */
  ghost function Descendants(cs: seq<Connection>, a: BubbleId): set<BubbleId> {
    set y | y in EndIds(cs) && Reachable(cs, a, y)
  }

  /** Every bubble reachable from another is the end of some connection. */
  lemma ReachableIsEnd(cs: seq<Connection>, a: BubbleId, b: BubbleId)
    requires Reachable(cs, a, b)
    ensures b in EndIds(cs)
    ensures b in Descendants(cs, a)
  {
    var p :| IsPath(cs, p) && p[0] == a && p[|p| - 1] == b;
    assert Edge(cs, p[|p| - 2], p[|p| - 1]);
  }

  /** One more connection out of the root or out of a reachable bubble leads
      to a reachable bubble. */
  lemma {:induction false} ReachStep(cs: seq<Connection>, root: BubbleId, b: BubbleId, c: Connection)
    requires b == root || Reachable(cs, root, b)
    requires c in cs && c.start == b
    ensures Reachable(cs, root, c.end)
  {
    if Reachable(cs, root, b) {
      var p :| IsPath(cs, p) && p[0] == root && p[|p| - 1] == b;
      var q := p + [c.end];
      forall i | 0 <= i < |q| - 1 ensures Edge(cs, q[i], q[i + 1]) {
        if i < |p| - 1 {
          assert q[i] == p[i] && q[i + 1] == p[i + 1];
        } else {
          assert q[i] == b && q[i + 1] == c.end;
        }
      }
      assert IsPath(cs, q) && q[0] == root && q[|q| - 1] == c.end;
    } else {
      var q := [root, c.end];
      assert Edge(cs, q[0], q[1]);
      assert IsPath(cs, q);
    }
  }

  /** Every connection leaving `x` leads into both `visited` and `children`. */
  ghost predicate Closed(cs: seq<Connection>, x: BubbleId, visited: set<BubbleId>, children: seq<BubbleId>) {
    forall c :: c in cs && c.start == x ==> c.end in visited && c.end in children
  }

  /** What the traversal has collected so far is reachable and duplicate-free. */
  ghost predicate Sound(cs: seq<Connection>, root: BubbleId, visited: set<BubbleId>, children: seq<BubbleId>) {
    && (forall v :: v in visited ==> v == root || Reachable(cs, root, v))
    && (forall y :: y in children ==> Reachable(cs, root, y))
    && Distinct(children)
  }

  ghost function Universe(cs: seq<Connection>, root: BubbleId): set<BubbleId> {
    {root} + EndIds(cs)
  }

  /** The closure `traverse` inside getChildBubbles: depth-first from `b`,
      guarded by the `visited` set, adding each end of a connection leaving a
      visited bubble to `children` (in first-seen order, like a JavaScript Set). */
  method Traverse(cs: seq<Connection>, ghost root: BubbleId, b: BubbleId,
                  visited: set<BubbleId>, children: seq<BubbleId>)
    returns (visited': set<BubbleId>, children': seq<BubbleId>)
    requires b == root || Reachable(cs, root, b)
    requires Sound(cs, root, visited, children)
    ensures visited <= visited' && b in visited'
    ensures forall y :: y in children ==> y in children'
    ensures Sound(cs, root, visited', children')
    ensures forall x :: x in visited' && x !in visited ==> Closed(cs, x, visited', children')
    decreases Universe(cs, root) - visited
  {
    if b in visited {
      return visited, children;
    }
    if b != root {
      ReachableIsEnd(cs, root, b);
    }
    visited' := visited + {b};
    children' := children;
    var i := 0;
    while i < |cs|
      invariant 0 <= i <= |cs|
      invariant visited + {b} <= visited'
      invariant forall y :: y in children ==> y in children'
      invariant Sound(cs, root, visited', children')
      invariant forall x :: x in visited' && x !in visited && x != b ==> Closed(cs, x, visited', children')
      invariant forall k :: 0 <= k < i && cs[k].start == b ==> cs[k].end in visited' && cs[k].end in children'
    {
      if cs[i].start == b {
        var next := cs[i].end;
        ReachStep(cs, root, b, cs[i]);
        if next !in children' {
          children' := children' + [next];
        }
        ghost var v0, c0 := visited', children';
        visited', children' := Traverse(cs, root, next, visited', children');
        forall x | x in visited' && x !in visited && x != b
          ensures Closed(cs, x, visited', children')
        {
          if x in v0 {
            assert Closed(cs, x, v0, c0);
          }
        }
      }
      i := i + 1;
    }
    forall c | c in cs && c.start == b ensures c.end in visited' && c.end in children' {
      var k :| 0 <= k < |cs| && cs[k] == c;
    }
  }

  /** A set of visited bubbles that holds the root and is closed under
      connections has every bubble reachable from the root among `children`. */
  lemma ClosedHoldsReachable(cs: seq<Connection>, root: BubbleId, visited: set<BubbleId>, children: seq<BubbleId>, y: BubbleId)
    requires root in visited
    requires forall x :: x in visited ==> Closed(cs, x, visited, children)
    requires Reachable(cs, root, y)
    ensures y in children
  {
    var p :| IsPath(cs, p) && p[0] == root && p[|p| - 1] == y;
    var i := 0;
    while i < |p| - 1
      invariant 0 <= i <= |p| - 1
      invariant p[i] in visited
      invariant i > 0 ==> p[i] in children
    {
      assert Edge(cs, p[i], p[i + 1]);
      var c :| c in cs && c.start == p[i] && c.end == p[i + 1];
      assert Closed(cs, p[i], visited, children);
      i := i + 1;
    }
  }

  /** getChildBubbles as a whole: the traversal from `parent` with nothing
      visited yields, without duplicates, exactly the bubbles reachable from
      `parent`; it terminates on cycles. */
  method ChildBubbles(cs: seq<Connection>, parent: BubbleId) returns (children: seq<BubbleId>)
    ensures Distinct(children)
    ensures forall y :: y in children <==> Reachable(cs, parent, y)
    ensures forall y :: y in children <==> y in Descendants(cs, parent)
  {
    var visited;
    visited, children := Traverse(cs, parent, parent, {}, []);
    forall y | Reachable(cs, parent, y) ensures y in children {
      ClosedHoldsReachable(cs, parent, visited, children, y);
    }
    forall y | y in Descendants(cs, parent) ensures y in children {
      ClosedHoldsReachable(cs, parent, visited, children, y);
    }
    forall y | y in children ensures y in Descendants(cs, parent) {
      ReachableIsEnd(cs, parent, y);
    }
  }

  /** Some connection leaves `a`. */
  predicate HasOutgoing(cs: seq<Connection>, a: BubbleId) {
    exists c :: c in cs && c.start == a
  }

  /** A bubble has descendants exactly when some connection leaves it. */
  lemma DescendantsNonEmpty(cs: seq<Connection>, a: BubbleId)
    ensures Descendants(cs, a) != {} <==> HasOutgoing(cs, a)
  {
    if HasOutgoing(cs, a) {
      var c :| c in cs && c.start == a;
      ReachStep(cs, a, a, c);
      ReachableIsEnd(cs, a, c.end);
    }
    if Descendants(cs, a) != {} {
      var y :| y in Descendants(cs, a);
      var p :| IsPath(cs, p) && p[0] == a && p[|p| - 1] == y;
      assert Edge(cs, p[0], p[1]);
    }
  }

  /** The cycle A -> B -> C -> A: A is among its own descendants, and so are B and C. */
  lemma CycleIncludesStart(a: BubbleId, b: BubbleId, c: BubbleId)
    ensures
      var cs := [Connection(a, b, Solid, None), Connection(b, c, Solid, None), Connection(c, a, Solid, None)];
      Reachable(cs, a, a) && Reachable(cs, a, b) && Reachable(cs, a, c)
  {
    var cs := [Connection(a, b, Solid, None), Connection(b, c, Solid, None), Connection(c, a, Solid, None)];
    assert cs[0] in cs && cs[1] in cs && cs[2] in cs;
    ReachStep(cs, a, a, cs[0]);
    ReachStep(cs, a, b, cs[1]);
    ReachStep(cs, a, c, cs[2]);
  }
}
