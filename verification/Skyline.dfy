/** The skyline of the texture atlas: a list of nodes, each of which says how
    high the columns that it covers are filled (freetype-gl/texture-atlas.c). */
module Skyline {

  /** Columns `x` to `x+z-1` are filled up to, but not including, row `y`. */
  datatype Node = Node(x: int, y: int, z: int)

  /** The nodes cover the columns `from` to `to-1`, in order and without gaps. */
  ghost predicate Tiled(nodes: seq<Node>, from: int, to: int) {
    if nodes == [] then from == to
    else nodes[0].x == from && nodes[0].z > 0 && nodes[0].y >= 1 && Tiled(nodes[1..], from + nodes[0].z, to)
  }

  /** The skyline at column `c`. */
  function HeightAt(nodes: seq<Node>, c: int): int {
    if nodes == [] then 0
    else if c < nodes[0].x + nodes[0].z then nodes[0].y
    else HeightAt(nodes[1..], c)
  }

  lemma {:induction false} TiledBounds(nodes: seq<Node>, from: int, to: int)
    requires Tiled(nodes, from, to)
    ensures from <= to && (nodes != [] ==> from < to)
  {
    if nodes != [] { TiledBounds(nodes[1..], from + nodes[0].z, to); }
  }

  lemma {:induction false} TiledAppend(a: seq<Node>, b: seq<Node>, from: int, mid: int, to: int)
    requires Tiled(a, from, mid) && Tiled(b, mid, to)
    ensures Tiled(a + b, from, to)
  {
    if a == [] {
      assert a + b == b;
    } else {
      assert (a + b)[1..] == a[1..] + b;
      TiledAppend(a[1..], b, from + a[0].z, mid, to);
    }
  }

  /** Splitting a tiled list in front of node `i`. */
  lemma {:induction false} TiledSplit(nodes: seq<Node>, from: int, to: int, i: nat)
    requires Tiled(nodes, from, to) && i < |nodes|
    ensures Tiled(nodes[..i], from, nodes[i].x) && Tiled(nodes[i..], nodes[i].x, to)
    ensures nodes[i].z > 0 && nodes[i].y >= 1 && from <= nodes[i].x && nodes[i].x + nodes[i].z <= to
    decreases i
  {
    if i == 0 {
      assert nodes[..0] == [] && nodes[0..] == nodes;
      TiledBounds(nodes[1..], from + nodes[0].z, to);
    } else {
      TiledSplit(nodes[1..], from + nodes[0].z, to, i - 1);
      assert nodes[1..][..i-1] == nodes[..i][1..] && nodes[1..][i-1..] == nodes[i..];
    }
  }

  lemma {:induction false} HeightAppend(a: seq<Node>, b: seq<Node>, from: int, mid: int, c: int)
    requires Tiled(a, from, mid)
    ensures HeightAt(a + b, c) == if c < mid && a != [] then HeightAt(a, c) else HeightAt(b, c)
  {
    if a == [] {
      assert a + b == b;
    } else {
      assert (a + b)[1..] == a[1..] + b;
      HeightAppend(a[1..], b, from + a[0].z, mid, c);
      TiledBounds(a[1..], from + a[0].z, mid);
    }
  }

  lemma {:induction false} HeightPositive(nodes: seq<Node>, from: int, to: int, c: int)
    requires Tiled(nodes, from, to) && c < to && nodes != []
    ensures HeightAt(nodes, c) >= 1
  {
    if c >= nodes[0].x + nodes[0].z {
      HeightPositive(nodes[1..], from + nodes[0].z, to, c);
    }
  }

  /** Some node covers each column. */
  lemma {:induction false} FindNode(nodes: seq<Node>, from: int, to: int, c: int) returns (i: nat)
    requires Tiled(nodes, from, to) && from <= c < to
    ensures i < |nodes| && nodes[i].x <= c < nodes[i].x + nodes[i].z
    ensures forall c' | nodes[i].x <= c' <= c :: HeightAt(nodes, c') == nodes[i].y
  {
    if c < nodes[0].x + nodes[0].z {
      i := 0;
    } else {
      var j := FindNode(nodes[1..], from + nodes[0].z, to, c);
      TiledSplit(nodes[1..], from + nodes[0].z, to, j);
      i := j + 1;
    }
  }

  // ----- fitting -----

  /** A rectangle of width `w` put at column `x` comes to rest at row `y`. */
  ghost predicate RestsAt(nodes: seq<Node>, x: int, w: int, y: int) {
    && (forall c | x <= c < x + w :: HeightAt(nodes, c) <= y)
    && (exists c :: x <= c < x + w && HeightAt(nodes, c) == y)
  }

  /** The loop of `texture_atlas_fit` over the nodes still to be looked at. */
  function FitLoop(rest: seq<Node>, y: int, widthLeft: int, h: nat, height: nat): int
    decreases |rest|
  {
    if widthLeft <= 0 || rest == [] then y
    else
      var y' := if rest[0].y > y then rest[0].y else y;
      if y' + h > height - 1 then -1
      else FitLoop(rest[1..], y', widthLeft - rest[0].z, h, height)
  }

  /** `texture_atlas_fit`: the row, or -1. */
  function Fit(nodes: seq<Node>, width: nat, height: nat, index: nat, w: nat, h: nat): int
    requires index < |nodes|
  {
    if nodes[index].x + w > width - 1 then -1
    else FitLoop(nodes[index..], nodes[index].y, w, h, height)
  }

  /** What the loop has found out: the highest of the columns looked at. */
  lemma {:induction false} FitLoopIs(rest: seq<Node>, from: int, to: int, y: int, w: int, h: nat, height: nat)
    requires Tiled(rest, from, to) && from + w <= to && y >= 1 && w > 0
    ensures var r := FitLoop(rest, y, w, h, height);
            if r == -1 then
              y + h > height - 1 || exists c :: from <= c < from + w && HeightAt(rest, c) + h > height - 1
            else
              && r >= y && r + h <= height - 1
              && (forall c | from <= c < from + w :: HeightAt(rest, c) <= r)
              && (r == y || exists c :: from <= c < from + w && HeightAt(rest, c) == r)
  {
    var n := rest[0];
    var y' := if n.y > y then n.y else y;
    var r := FitLoop(rest, y, w, h, height);
    assert from <= from < from + w && HeightAt(rest, from) == n.y;
    if y' + h > height - 1 {
      assert r == -1;
    } else if w - n.z > 0 {
      var tail := rest[1..];
      assert r == FitLoop(tail, y', w - n.z, h, height);
      FitLoopIs(tail, from + n.z, to, y', w - n.z, h, height);
      forall c | from <= c ensures HeightAt(rest, c) == if c < from + n.z then n.y else HeightAt(tail, c) {}
      FitLoopWitness(rest, tail, from, n, w, r, h, height);
    } else {
      assert r == y';
      forall c | from <= c < from + w ensures HeightAt(rest, c) == n.y {}
    }
  }

  lemma {:induction false} FitLoopWitness(
    rest: seq<Node>, tail: seq<Node>, from: int, n: Node, w: int, r: int, h: nat, height: nat)
    requires n.z > 0 && forall c | from + n.z <= c :: HeightAt(rest, c) == HeightAt(tail, c)
    ensures (exists c :: from + n.z <= c < from + w && HeightAt(tail, c) == r) ==>
              exists c :: from <= c < from + w && HeightAt(rest, c) == r
    ensures (exists c :: from + n.z <= c < from + w && HeightAt(tail, c) + h > height - 1) ==>
              exists c :: from <= c < from + w && HeightAt(rest, c) + h > height - 1
  {
    if c :| from + n.z <= c < from + w && HeightAt(tail, c) == r {
      assert from <= c < from + w && HeightAt(rest, c) == r;
    }
    if c :| from + n.z <= c < from + w && HeightAt(tail, c) + h > height - 1 {
      assert from <= c < from + w && HeightAt(rest, c) + h > height - 1;
    }
  }

  /** A node fits exactly if a rectangle put at its left edge stays inside the
      border, and then it rests at the row returned. */
  lemma {:induction false} FitIs(nodes: seq<Node>, width: nat, height: nat, index: nat, w: nat, h: nat)
    requires Tiled(nodes, 1, width - 1) && index < |nodes| && w > 0
    ensures var y := Fit(nodes, width, height, index, w, h); var x := nodes[index].x;
            if y == -1 then
              x + w > width - 1 || forall y' | RestsAt(nodes, x, w, y') :: y' + h > height - 1
            else
              y >= 1 && x + w <= width - 1 && y + h <= height - 1 && RestsAt(nodes, x, w, y)
  {
    var x := nodes[index].x;
    TiledSplit(nodes, 1, width - 1, index);
    if x + w <= width - 1 {
      var rest := nodes[index..];
      forall c | x <= c ensures HeightAt(nodes, c) == HeightAt(rest, c) {
        HeightAppend(nodes[..index], rest, 1, x, c);
        assert nodes == nodes[..index] + rest;
      }
      assert HeightAt(nodes, x) == nodes[index].y;
      FitLoopIs(rest, x, width - 1, nodes[index].y, w, h, height);
      var y := Fit(nodes, width, height, index, w, h);
      if y == -1 {
        var c :| x <= c < x + w && HeightAt(rest, c) + h > height - 1;
        assert HeightAt(nodes, c) + h > height - 1;
      } else if y == nodes[index].y {
        assert x <= x < x + w && HeightAt(nodes, x) == y;
      } else {
        var c :| x <= c < x + w && HeightAt(rest, c) == y;
        assert HeightAt(nodes, c) == y;
      }
    }
  }

  /** Wherever a rectangle can rest, it rests at least as low at the left edge
      of the node under its left edge. */
  lemma {:induction false} LeftEdgeSuffices(
    nodes: seq<Node>, width: nat, height: nat, x: int, w: nat, h: nat, y: int)
    returns (i: nat)
    requires Tiled(nodes, 1, width - 1) && w > 0 && 1 <= x && x + w <= width - 1
    requires RestsAt(nodes, x, w, y) && y + h <= height - 1
    ensures i < |nodes| && Fit(nodes, width, height, i, w, h) != -1 && Fit(nodes, width, height, i, w, h) <= y
  {
    i := FindNode(nodes, 1, width - 1, x);
    var xi := nodes[i].x;
    assert HeightAt(nodes, x) <= y;
    assert forall c | xi <= c < xi + w :: HeightAt(nodes, c) <= y;
    FitIs(nodes, width, height, i, w, h);
    var r := Fit(nodes, width, height, i, w, h);
    if r == -1 {
      var top := HighestIn(nodes, xi, w);
      assert false;
    }
  }

  lemma {:induction false} HighestIn(nodes: seq<Node>, x: int, w: nat) returns (y: int)
    requires w > 0
    ensures RestsAt(nodes, x, w, y)
  {
    if w == 1 {
      y := HeightAt(nodes, x);
    } else {
      y := HighestIn(nodes, x, w - 1);
      var last := HeightAt(nodes, x + w - 1);
      if last > y { y := last; }
    }
  }

  // ----- raising the skyline -----

  /** The loop behind the insertion: nodes lose the columns below `limit`. */
  function Trim(rest: seq<Node>, limit: int): seq<Node>
    decreases |rest|
  {
    if rest == [] || rest[0].x >= limit then rest
    else
      var shrink := limit - rest[0].x;
      if rest[0].z - shrink <= 0 then Trim(rest[1..], limit)
      else [Node(rest[0].x + shrink, rest[0].y, rest[0].z - shrink)] + rest[1..]
  }

  /** `texture_atlas_merge`. */
  function Merged(nodes: seq<Node>): seq<Node>
    decreases |nodes|
  {
    if |nodes| < 2 then nodes
    else if nodes[0].y == nodes[1].y then Merged([Joined(nodes[0], nodes[1])] + nodes[2..])
    else [nodes[0]] + Merged(nodes[1..])
  }

  function Joined(n: Node, next: Node): Node {
    n.(z := n.z + next.z)
  }

  /** The nodes after a rectangle of width `w` has been put at node `index`,
      with its lower edge at row `top`. */
  function Raised(nodes: seq<Node>, index: nat, w: int, top: int): seq<Node>
    requires index < |nodes|
  {
    Merged(nodes[..index] + [Node(nodes[index].x, top, w)] + Trim(nodes[index..], nodes[index].x + w))
  }

  lemma {:induction false} TrimIs(rest: seq<Node>, from: int, to: int, limit: int)
    requires Tiled(rest, from, to) && from <= limit <= to
    ensures Tiled(Trim(rest, limit), limit, to)
    ensures forall c | limit <= c < to :: HeightAt(Trim(rest, limit), c) == HeightAt(rest, c)
    decreases |rest|
  {
    if rest != [] && from < limit {
      var n := rest[0];
      if n.z - (limit - from) <= 0 {
        TrimIs(rest[1..], from + n.z, to, limit);
      } else {
        var t := Trim(rest, limit);
        assert t[1..] == rest[1..];
      }
    }
  }

  lemma {:induction false} MergedIs(nodes: seq<Node>, from: int, to: int)
    requires Tiled(nodes, from, to)
    ensures Tiled(Merged(nodes), from, to)
    ensures forall c :: HeightAt(Merged(nodes), c) == HeightAt(nodes, c)
    decreases |nodes|
  {
    if |nodes| >= 2 {
      var tail := nodes[1..];
      if nodes[0].y == nodes[1].y {
        var joined := [Joined(nodes[0], nodes[1])] + nodes[2..];
        assert joined[1..] == nodes[2..] == tail[1..];
        MergedIs(joined, from, to);
        forall c ensures HeightAt(joined, c) == HeightAt(nodes, c) {}
      } else {
        MergedIs(tail, from + nodes[0].z, to);
        var m := Merged(nodes);
        assert m[1..] == Merged(tail);
        forall c ensures HeightAt(m, c) == HeightAt(nodes, c) {}
      }
    }
  }

  /** Raising keeps the tiling, sets the skyline to `top` under the rectangle
      and leaves it alone elsewhere. */
  lemma {:induction false} RaisedIs(nodes: seq<Node>, from: int, to: int, index: nat, w: int, top: int)
    requires Tiled(nodes, from, to) && index < |nodes| && 0 < w && nodes[index].x + w <= to && top >= 1
    ensures Tiled(Raised(nodes, index, w, top), from, to)
    ensures forall c | from <= c < to ::
              HeightAt(Raised(nodes, index, w, top), c) ==
              if nodes[index].x <= c < nodes[index].x + w then top else HeightAt(nodes, c)
  {
    var x := nodes[index].x;
    var a, b := nodes[..index], nodes[index..];
    var n := [Node(x, top, w)];
    var t := Trim(b, x + w);
    TiledSplit(nodes, from, to, index);
    TrimIs(b, x, to, x + w);
    assert Tiled(n, x, x + w) by { assert n[1..] == []; }
    TiledAppend(a, n, from, x, x + w);
    TiledAppend(a + n, t, from, x + w, to);
    MergedIs(a + n + t, from, to);
    forall c | from <= c < to
      ensures HeightAt(a + n + t, c) == if x <= c < x + w then top else HeightAt(nodes, c)
    {
      RaisedHeight(nodes, a, b, n, t, from, x, w, c);
    }
  }

  /** A node without columns, as high as the next one, disappears. */
  lemma {:induction false} EmptyNodeVanishes(a: seq<Node>, n: Node, b: seq<Node>)
    requires b != [] && n == Node(b[0].x, b[0].y, 0)
    ensures Merged(a + [n] + b) == Merged(a + b)
    decreases |a|
  {
    var s, t := a + [n] + b, a + b;
    if a == [] {
      assert s[2..] == b[1..] && [Joined(n, b[0])] + b[1..] == b == t;
    } else if |a| == 1 {
      assert s[1..] == [] + [n] + b && t[1..] == [] + b;
      EmptyNodeVanishes([], n, b);
      assert [Joined(a[0], n)] + s[2..] == t;
    } else if a[0].y == a[1].y {
      var joined := [Joined(a[0], a[1])] + a[2..];
      assert [Joined(a[0], a[1])] + s[2..] == joined + [n] + b;
      assert [Joined(a[0], a[1])] + t[2..] == joined + b;
      EmptyNodeVanishes(joined, n, b);
    } else {
      assert s[1..] == a[1..] + [n] + b && t[1..] == a[1..] + b;
      EmptyNodeVanishes(a[1..], n, b);
    }
  }

  /** Putting nothing at a node merges the nodes, no more. */
  lemma {:induction false} RaisedByNothing(nodes: seq<Node>, from: int, to: int, index: nat)
    requires Tiled(nodes, from, to) && index < |nodes|
    ensures Raised(nodes, index, 0, nodes[index].y) == Merged(nodes)
    ensures Tiled(Merged(nodes), from, to)
  {
    var a, b := nodes[..index], nodes[index..];
    assert nodes == a + b && b[0] == nodes[index];
    EmptyNodeVanishes(a, Node(b[0].x, b[0].y, 0), b);
    MergedIs(nodes, from, to);
  }

  lemma {:induction false} RaisedHeight(
    nodes: seq<Node>, a: seq<Node>, b: seq<Node>, n: seq<Node>, t: seq<Node>, from: int, x: int, w: int, c: int)
    requires nodes == a + b && Tiled(a, from, x) && |n| == 1 && n[0].x == x && n[0].z == w && w > 0
    requires Tiled(a + n, from, x + w) && from <= c
    requires c >= x + w ==> HeightAt(t, c) == HeightAt(b, c)
    ensures HeightAt(a + n + t, c) == if x <= c < x + w then n[0].y else HeightAt(nodes, c)
  {
    HeightAppend(a, b, from, x, c);
    HeightAppend(a, n, from, x, c);
    HeightAppend(a + n, t, from, x + w, c);
  }
}
