/** The texture atlas: an allocator of rectangles in a growing pixel array
    (freetype-gl/texture-atlas.c). */
module Atlas {
  import opened Basics
  import opened Skyline
  import opened Pixels

  newtype byte = i: int | 0 <= i < 256

  const UINT_MAX: nat := 0xffff_ffff

  datatype Region = Region(x: int, y: int, width: nat, height: nat)

  const NO_ROOM := Region(-1, -1, 0, 0)

  /** The pixels of the special glyph. */
  const WHITE: seq<byte> := seq(4 * 4 * 3, i => 255)

  // ----- regions -----

  predicate Inside(r: Region, px: int, py: int) {
    r.x <= px < r.x + r.width && r.y <= py < r.y + r.height
  }

  ghost predicate Disjoint(r: Region, s: Region) {
    forall px, py :: Inside(r, px, py) ==> !Inside(s, px, py)
  }

  /** `r` lies inside the border of one pixel, and below the skyline, unless it
      has no columns at all. */
  ghost predicate Placed(nodes: seq<Node>, width: nat, height: nat, r: Region) {
    r.width > 0 ==>
      && 1 <= r.x && r.x + r.width <= width - 1
      && 1 <= r.y && r.y + r.height <= height - 1
      && forall c | r.x <= c < r.x + r.width :: r.y + r.height <= HeightAt(nodes, c)
  }

  ghost predicate AllPlaced(nodes: seq<Node>, width: nat, height: nat, rs: seq<Region>) {
    && (forall i | 0 <= i < |rs| :: Placed(nodes, width, height, rs[i]))
    && (forall i, j | 0 <= i < j < |rs| :: Disjoint(rs[i], rs[j]))
  }

  function Area(rs: seq<Region>): nat {
    if rs == [] then 0 else Area(rs[..|rs|-1]) + rs[|rs|-1].width * rs[|rs|-1].height
  }

  /** A rectangle that rests on the skyline does not touch what lies below. */
  lemma {:induction false} RestingIsDisjoint(nodes: seq<Node>, width: nat, height: nat, r: Region, s: Region)
    requires Placed(nodes, width, height, r) && RestsAt(nodes, s.x, s.width, s.y)
    ensures Disjoint(r, s)
  {
    forall px, py | Inside(r, px, py) ensures !Inside(s, px, py) {
      if s.x <= px < s.x + s.width {
        assert HeightAt(nodes, px) <= s.y;
      }
    }
  }

  lemma {:induction false} PlaceAnother(
    nodes: seq<Node>, nodes': seq<Node>, width: nat, height: nat, rs: seq<Region>, s: Region)
    requires Tiled(nodes, 1, width - 1) && AllPlaced(nodes, width, height, rs)
    requires s.width > 0 && 1 <= s.x && s.x + s.width <= width - 1 && 1 <= s.y && s.y + s.height <= height - 1
    requires RestsAt(nodes, s.x, s.width, s.y)
    requires forall c | 1 <= c < width - 1 ::
               HeightAt(nodes', c) == if s.x <= c < s.x + s.width then s.y + s.height else HeightAt(nodes, c)
    ensures AllPlaced(nodes', width, height, rs + [s])
  {
    forall i | 0 <= i < |rs| ensures Placed(nodes', width, height, rs[i]) && Disjoint(rs[i], s) {
      RestingIsDisjoint(nodes, width, height, rs[i], s);
      KeepPlaced(nodes, nodes', width, height, rs[i], s);
    }
    assert Placed(nodes', width, height, s);
  }

  lemma {:induction false} KeepPlaced(
    nodes: seq<Node>, nodes': seq<Node>, width: nat, height: nat, r: Region, s: Region)
    requires Placed(nodes, width, height, r) && RestsAt(nodes, s.x, s.width, s.y)
    requires forall c | 1 <= c < width - 1 ::
               HeightAt(nodes', c) == if s.x <= c < s.x + s.width then s.y + s.height else HeightAt(nodes, c)
    ensures Placed(nodes', width, height, r)
  {
    forall c | r.x <= c < r.x + r.width ensures r.y + r.height <= HeightAt(nodes', c) {
      if s.x <= c < s.x + s.width {
        assert HeightAt(nodes, c) <= s.y;
      }
    }
  }

  // ----- the best node -----

  /** Node `i` is a better place than a top edge of `bestTop` on a node of
      width `bestWidth`. */
  predicate Better(y: int, h: nat, z: int, bestTop: int, bestWidth: int) {
    y >= 0 && (y + h < bestTop || (y + h == bestTop && z > 0 && z < bestWidth))
  }

  /** `best` is the lowest place among the first `n` nodes, the narrowest node
      among the lowest, and the first one among those. */
  ghost predicate BestOf(nodes: seq<Node>, width: nat, height: nat, w: nat, h: nat, n: nat, best: int) {
    && n <= |nodes| && -1 <= best < n
    && (best >= 0 ==> Fit(nodes, width, height, best, w, h) >= 0)
    && (forall i | 0 <= i < n && Fit(nodes, width, height, i, w, h) >= 0
      && Fit(nodes, width, height, i, w, h) + h < UINT_MAX ::
          best >= 0 && Fit(nodes, width, height, best, w, h) <= Fit(nodes, width, height, i, w, h))
    && (best >= 0 && Fit(nodes, width, height, best, w, h) + h < UINT_MAX ==>
          forall i | 0 <= i < n && Fit(nodes, width, height, i, w, h) == Fit(nodes, width, height, best, w, h) ::
            nodes[best].z <= nodes[i].z && (i < best ==> nodes[best].z < nodes[i].z))
  }

  // ----- the lowest place -----

  /** No place for a rectangle is lower than row `y`. */
  ghost predicate Lowest(nodes: seq<Node>, width: nat, height: nat, w: nat, h: nat, y: int) {
    forall x', y' {:trigger RestsAt(nodes, x', w, y')} |
      1 <= x' && x' + w <= width - 1 && y' + h <= height - 1 && RestsAt(nodes, x', w, y') :: y <= y'
  }

  ghost predicate NoPlace(nodes: seq<Node>, width: nat, height: nat, w: nat, h: nat) {
    forall x', y' {:trigger RestsAt(nodes, x', w, y')} |
      1 <= x' && x' + w <= width - 1 && RestsAt(nodes, x', w, y') :: y' + h > height - 1
  }

  /** The best node gives the lowest place among all columns; without a best
      node there is no place at all. */
  lemma {:induction false} BestIsLowest(nodes: seq<Node>, width: nat, height: nat, w: nat, h: nat, best: int)
    requires Tiled(nodes, 1, width - 1) && w > 0 && height <= UINT_MAX
    requires BestOf(nodes, width, height, w, h, |nodes|, best)
    ensures best >= 0 ==> Lowest(nodes, width, height, w, h, Fit(nodes, width, height, best, w, h))
    ensures best == -1 ==> NoPlace(nodes, width, height, w, h)
  {
    forall x', y' {:trigger RestsAt(nodes, x', w, y')} |
      1 <= x' && x' + w <= width - 1 && y' + h <= height - 1 && RestsAt(nodes, x', w, y')
      ensures best >= 0 && Fit(nodes, width, height, best, w, h) <= y'
    {
      var i := LeftEdgeSuffices(nodes, width, height, x', w, h, y');
      FitIs(nodes, width, height, i, w, h);
    }
  }

  /** `r` is the lowest place for a rectangle of its size, and `nodes'` is the
      skyline with `r` added. */
  ghost predicate Allocates(nodes: seq<Node>, nodes': seq<Node>, width: nat, height: nat, r: Region) {
    && 1 <= r.x && r.x + r.width <= width - 1
    && 1 <= r.y && r.y + r.height <= height - 1
    && RestsAt(nodes, r.x, r.width, r.y)
    && Lowest(nodes, width, height, r.width, r.height, r.y)
    && forall c | 1 <= c < width - 1 ::
         HeightAt(nodes', c) == if r.x <= c < r.x + r.width then r.y + r.height else HeightAt(nodes, c)
  }

  lemma {:induction false} AllocateAt(
    nodes: seq<Node>, width: nat, height: nat, w: nat, h: nat, best: nat, rs: seq<Region>)
    requires Tiled(nodes, 1, width - 1) && w > 0 && height <= UINT_MAX && best < |nodes|
    requires BestOf(nodes, width, height, w, h, |nodes|, best) && AllPlaced(nodes, width, height, rs)
    ensures var r := Region(nodes[best].x, Fit(nodes, width, height, best, w, h), w, h);
            var nodes' := Raised(nodes, best, w, r.y + h);
            && Tiled(nodes', 1, width - 1)
            && Allocates(nodes, nodes', width, height, r)
            && AllPlaced(nodes', width, height, rs + [r])
  {
    var r := Region(nodes[best].x, Fit(nodes, width, height, best, w, h), w, h);
    TiledSplit(nodes, 1, width - 1, best);
    BestIsLowest(nodes, width, height, w, h, best);
    FitIs(nodes, width, height, best, w, h);
    RaisedIs(nodes, 1, width - 1, best, w, r.y + h);
    PlaceAnother(nodes, Raised(nodes, best, w, r.y + h), width, height, rs, r);
  }

  /** A request without columns and rows merges the nodes, no more. */
  lemma {:induction false} AllocateNothing(
    nodes: seq<Node>, width: nat, height: nat, best: nat, rs: seq<Region>, r: Region)
    requires Tiled(nodes, 1, width - 1) && best < |nodes| && AllPlaced(nodes, width, height, rs)
    requires r == Region(nodes[best].x, nodes[best].y, 0, 0)
    ensures var nodes' := Raised(nodes, best, 0, r.y);
            && Tiled(nodes', 1, width - 1) && AllPlaced(nodes', width, height, rs + [r])
            && forall c :: HeightAt(nodes', c) == HeightAt(nodes, c)
  {
    RaisedByNothing(nodes, 1, width - 1, best);
    MergedIs(nodes, 1, width - 1);
    var nodes' := Merged(nodes);
    forall i | 0 <= i < |rs| ensures Placed(nodes', width, height, rs[i]) {
      assert Placed(nodes, width, height, rs[i]);
    }
  }

  lemma {:induction false} AreaStep(rs: seq<Region>, r: Region)
    ensures Area(rs + [r]) == Area(rs) + r.width * r.height
  {
    assert (rs + [r])[..|rs|] == rs;
  }

  class Atlas {
    var width: nat
    var height: nat
    var depth: nat
    var nodes: seq<Node>
    var used: nat
    var modified: bool
    var data: array<byte>
    /** The regions handed out since the atlas was last cleared. */
    ghost var regions: seq<Region>

    ghost predicate Valid()
      reads this, data
    {
      && 3 <= width && 3 <= height <= UINT_MAX && depth > 0
      && data.Length == width * height * depth
      && Tiled(nodes, 1, width - 1)
      && AllPlaced(nodes, width, height, regions)
      && used == Area(regions)
    }

    /** `texture_atlas_new`.  There must be room for the special glyph, or an
        assertion of `texture_atlas_set_region` fails. */
    constructor (width: nat, height: nat, depth: nat)
      requires 7 <= width && 7 <= height <= UINT_MAX && depth in {1, 3, 4}
      ensures Valid() && regions == [Region(1, 1, 5, 5)] && used == 25
      ensures this.width == width && this.height == height && this.depth == depth
      ensures forall px, py, k | 0 <= px < width && 0 <= py < height && 0 <= k < depth ::
                At(data[..], width, depth, px, py, k) == if 1 <= px < 5 && 1 <= py < 5 then 255 else 0
    {
      this.width, this.height, this.depth := width, height, depth;
      nodes, used, modified, regions := [Node(1, 1, width - 2)], 0, true, [];
      data := new byte[width * height * depth](i => 0);
      new;
      OneNode(width);
      FreshRests(width, 1, 5, 1);
      ghost var d0 := data[..];
      ghost var r := Special();
      FreshRests(width, r.x, 5, r.y);
      WhiteGlyph(d0, data[..], width, height, depth);
    }

    /** `texture_atlas_special` */
    method Special() returns (ghost r: Region)
      requires Valid() && depth <= 4 && !NoPlace(nodes, width, height, 5, 5)
      modifies this`nodes, this`used, this`modified, this`regions, data
      ensures Valid() && r.width == 5 && r.height == 5 && Allocates(old(nodes), nodes, width, height, r)
      ensures (exists i | 0 <= i < |old(nodes)| :: r.x == old(nodes)[i].x)
      ensures regions == old(regions) + [r] && used == old(used) + 25
      ensures Written(old(data[..]), data[..], width, height, depth, Region(r.x, r.y, 4, 4), WHITE, 0, 0)
    {
      var region, index := GetRegion(5, 5);
      r := region;
      assert region.x == old(nodes)[index].x;
      SetRegion(Region(region.x, region.y, 4, 4), WHITE, 0, 0);
    }

    /** `texture_atlas_fit`. */
    method FitAt(index: nat, w: nat, h: nat) returns (y: int)
      requires Tiled(nodes, 1, width - 1) && index < |nodes|
      ensures y == Fit(nodes, width, height, index, w, h)
    {
      var node := nodes[index];
      y := node.y;
      var widthLeft: int := w;
      var i := index;
      if node.x + w > width - 1 { return -1; }
      TiledSplit(nodes, 1, width - 1, index);
      ghost var from := node.x;
      while widthLeft > 0
        invariant index <= i <= |nodes|
        invariant Tiled(nodes[i..], from, width - 1) && from + widthLeft <= width - 1
        invariant FitLoop(nodes[index..], node.y, w, h, height) == FitLoop(nodes[i..], y, widthLeft, h, height)
        decreases |nodes| - i
      {
        TiledBounds(nodes[i..], from, width - 1);
        var n := nodes[i];
        if n.y > y { y := n.y; }
        if y + h > height - 1 { return -1; }
        widthLeft := widthLeft - n.z;
        from := from + n.z;
        assert nodes[i..][1..] == nodes[i+1..];
        i := i + 1;
      }
    }

    /** The search of `texture_atlas_get_region`. */
    method FindBest(w: nat, h: nat) returns (best: int, y: int)
      requires Tiled(nodes, 1, width - 1)
      ensures BestOf(nodes, width, height, w, h, |nodes|, best)
      ensures best >= 0 ==> y == Fit(nodes, width, height, best, w, h)
    {
      var bestTop: int, bestWidth: int := UINT_MAX, UINT_MAX;
      best, y := -1, 0;
      var i := 0;
      while i < |nodes|
        invariant 0 <= i <= |nodes|
        invariant BestOf(nodes, width, height, w, h, i, best)
        invariant if best >= 0 then y == Fit(nodes, width, height, best, w, h) && bestTop == y + h
                  && bestWidth == nodes[best].z
                  else bestTop == UINT_MAX
      {
        var y' := FitAt(i, w, h);
        TiledSplit(nodes, 1, width - 1, i);
        if Better(y', h, nodes[i].z, bestTop, bestWidth) {
          bestTop, best, bestWidth, y := y' + h, i, nodes[i].z, y';
        }
        i := i + 1;
      }
    }

    /** `texture_atlas_merge`. */
    method Merge()
      modifies this`nodes
      ensures nodes == Merged(old(nodes))
    {
      ghost var nodes0 := nodes;
      var i := 0;
      assert nodes[..0] == [] && nodes[0..] == nodes;
      while i < |nodes| - 1
        invariant 0 <= i && (i < |nodes| || i == 0)
        invariant nodes[..i] + Merged(nodes[i..]) == Merged(nodes0)
        decreases |nodes| - i
      {
        var node, next := nodes[i], nodes[i + 1];
        ghost var rest := nodes[i..];
        if node.y == next.y {
          var joined := nodes[..i] + [node.(z := node.z + next.z)] + nodes[i+2..];
          assert joined[i..] == [Joined(rest[0], rest[1])] + rest[2..] && joined[..i] == nodes[..i];
          nodes := joined;
        } else {
          assert rest[1..] == nodes[i+1..];
          assert nodes[..i+1] == nodes[..i] + [node];
          i := i + 1;
        }
      }
      assert nodes == nodes[..i] + nodes[i..];
    }

    /** The insertion of `texture_atlas_get_region`: a node for the new
        rectangle, before the nodes that it covers lose those columns. */
    method Insert(index: nat, w: nat, top: int)
      requires index < |nodes|
      modifies this`nodes
      ensures nodes == Raised(old(nodes), index, w, top)
    {
      ghost var a, b := nodes[..index], nodes[index..];
      var n := Node(nodes[index].x, top, w);
      nodes := nodes[..index] + [n] + nodes[index..];
      var i := index + 1;
      ghost var limit := n.x + n.z;
      assert nodes[i..] == b;
      while i < |nodes|
        invariant i == index + 1 <= |nodes|
        invariant nodes[..i] == a + [n]
        invariant Trim(nodes[i..], limit) == Trim(b, limit)
        decreases |nodes|
      {
        var node, prev := nodes[i], nodes[i - 1];
        assert prev == n;
        ghost var rest := nodes[i..];
        if node.x < prev.x + prev.z {
          var shrink := prev.x + prev.z - node.x;
          node := Node(node.x + shrink, node.y, node.z - shrink);
          if node.z <= 0 {
            nodes := nodes[..i] + nodes[i+1..];
            assert nodes[i..] == rest[1..];
          } else {
            nodes := nodes[..i] + [node] + nodes[i+1..];
            assert nodes[i..] == [node] + rest[1..] == Trim(b, limit);
            break;
          }
        } else {
          break;
        }
      }
      assert nodes == nodes[..i] + nodes[i..];
      assert nodes == a + [n] + Trim(b, limit);
      Merge();
    }

    /** `texture_atlas_get_region`.  A request with rows but without columns
        breaks the tiling. */
    method GetRegion(w: nat, h: nat) returns (region: Region, ghost index: int)
      requires Valid()
      modifies this`nodes, this`used, this`modified, this`regions
      ensures w > 0 || h == 0 ==> Valid()
      ensures region == NO_ROOM ==> nodes == old(nodes) && used == old(used) && regions == old(regions)
      ensures region == NO_ROOM ==> NoPlace(nodes, width, height, w, h)
      ensures region != NO_ROOM ==>
                && region.width == w && region.height == h
                && regions == old(regions) + [region] && used == old(used) + w * h
      ensures region != NO_ROOM && w > 0 ==> Allocates(old(nodes), nodes, width, height, region)
      ensures region != NO_ROOM && w == 0 && h == 0 ==> forall c :: HeightAt(nodes, c) == HeightAt(old(nodes), c)
      ensures region != NO_ROOM ==>
                && 0 <= index < |old(nodes)| && region.x == old(nodes)[index].x
                && nodes == Raised(old(nodes), index, w, region.y + h)
    {
      var best, y := FindBest(w, h);
      index := best;
      if best == -1 {
        if w > 0 { BestIsLowest(nodes, width, height, w, h, best); }
        return NO_ROOM, -1;
      }
      region := Allocate(w, h, best, y);
    }

    /** Takes the place that was found. */
    method Allocate(w: nat, h: nat, best: nat, y: int) returns (region: Region)
      requires Valid() && best < |nodes| && BestOf(nodes, width, height, w, h, |nodes|, best)
      requires y == Fit(nodes, width, height, best, w, h)
      modifies this`nodes, this`used, this`modified, this`regions
      ensures w > 0 || h == 0 ==> Valid()
      ensures region == Region(old(nodes)[best].x, y, w, h)
      ensures regions == old(regions) + [region] && used == old(used) + w * h
      ensures nodes == Raised(old(nodes), best, w, region.y + h)
      ensures w > 0 ==> Allocates(old(nodes), nodes, width, height, region)
      ensures w == 0 && h == 0 ==> forall c :: HeightAt(nodes, c) == HeightAt(old(nodes), c)
    {
      region := Region(nodes[best].x, y, w, h);
      TiledSplit(nodes, 1, width - 1, best);
      if w > 0 {
        AllocateAt(nodes, width, height, w, h, best, regions);
      } else if h == 0 {
        AllocateNothing(nodes, width, height, best, regions, region);
      }
      Occupy(best, region);
    }

    /** The updates of `texture_atlas_get_region`. */
    method Occupy(best: nat, region: Region)
      requires Valid() && best < |nodes|
      requires region.width > 0 || region.height == 0 ==>
                 var nodes' := Raised(nodes, best, region.width, region.y + region.height);
                 Tiled(nodes', 1, width - 1) && AllPlaced(nodes', width, height, regions + [region])
      modifies this`nodes, this`used, this`modified, this`regions
      ensures region.width > 0 || region.height == 0 ==> Valid()
      ensures nodes == Raised(old(nodes), best, region.width, region.y + region.height)
      ensures used == old(used) + region.width * region.height && regions == old(regions) + [region]
    {
      AreaStep(regions, region);
      Insert(best, region.width, region.y + region.height);
      used := used + region.width * region.height;
      modified := true;
      regions := regions + [region];
    }

    /** `memcpy` into the pixel array. */
    method CopyRow(first: nat, src: seq<byte>, from: nat, len: nat)
      requires first + len <= data.Length && from + len <= |src|
      modifies data
      ensures data[..] == RowCopied(old(data[..]), first, src, from, len)
    {
      forall j | first <= j < first + len { data[j] := src[from + j - first]; }
      assert data[..] == RowCopied(old(data[..]), first, src, from, len);
    }

    /** `texture_atlas_set_region`, from `src` starting at `base`. */
    method SetRegion(r: Region, src: seq<byte>, base: nat, stride: nat)
      requires 0 < depth && data.Length == width * height * depth
      requires 0 < r.x < width - 1 && r.x + r.width <= width - 1
      requires 0 < r.y < height - 1 && r.y + r.height <= height - 1
      requires r.height == 0 || r.width > 0
      requires forall i | 0 <= i < r.height :: 0 <= i * stride && base + i * stride + r.width * depth <= |src|
      modifies data, this`modified
      ensures Written(old(data[..]), data[..], width, height, depth, r, src, base, stride)
    {
      var i := 0;
      ghost var d0 := data[..];
      while i < r.height
        invariant 0 <= i <= r.height
        invariant Written(d0, data[..], width, height, depth, r.(height := i), src, base, stride)
      {
        RowBound(width, height, depth, r.x, r.y + i, r.width);
        assert 0 <= i * stride && base + i * stride + r.width * depth <= |src|;
        MulLe(0, r.width, depth);
        WriteRow(d0, data[..], width, height, depth, r, i, src, base, stride);
        CopyRow(Offset(width, depth, r.x, r.y + i, 0), src, base + i * stride, r.width * depth);
        i := i + 1;
      }
      modified := true;
    }

    /** A larger atlas with an empty texture. */
    method Grow(widthNew: nat, heightNew: nat)
      requires Valid() && widthNew >= width && height <= heightNew <= UINT_MAX
      modifies this`data, this`width, this`height, this`nodes
      ensures Valid() && width == widthNew && height == heightNew && fresh(data)
      ensures regions == old(regions) && used == old(used)
      ensures forall c | 1 <= c < width - 1 ::
                HeightAt(nodes, c) == if c < old(width) - 1 then HeightAt(old(nodes), c) else 1
    {
      ghost var widthOld, heightOld, nodesOld := width, height, nodes;
      SizeNat(widthNew, heightNew, depth);
      data := new byte[widthNew * heightNew * depth](_ => 0);
      if widthNew > width {
        nodes := nodes + [Node(width - 1, 1, widthNew - width)];
      }
      width, height := widthNew, heightNew;
      GainedSpace(nodesOld, widthOld, widthNew, nodes, regions, heightOld, heightNew);
    }

    /** `texture_atlas_enlarge_texture`. */
    method EnlargeTexture(widthNew: nat, heightNew: nat)
      requires Valid() && widthNew >= width && heightNew >= height && heightNew <= UINT_MAX
      requires widthNew + heightNew > width + height
      modifies this`data, this`width, this`height, this`nodes, this`modified
      ensures Valid() && width == widthNew && height == heightNew
      ensures regions == old(regions) && used == old(used)
      ensures forall c | 1 <= c < width - 1 ::
                HeightAt(nodes, c) == if c < old(width) - 1 then HeightAt(old(nodes), c) else 1
      ensures forall px, py, k | 1 <= px < old(width) - 1 && 1 <= py < old(height) - 1 && 0 <= k < depth ::
                At(data[..], width, depth, px, py, k) == At(old(data[..]), old(width), depth, px, py, k)
    {
      var widthOld, heightOld, dataOld := width, height, data[..];
      Grow(widthNew, heightNew);
      var rowSize := widthOld * depth;
      ghost var d := data[..];
      OldRows(widthOld, heightOld, depth);
      SetRegion(Region(1, 1, widthOld - 2, heightOld - 2), dataOld, rowSize + depth, rowSize);
      CopiedPixels(d, data[..], width, height, depth, widthOld, heightOld, dataOld);
    }

    /** `texture_atlas_clear`. */
    method Clear()
      requires Valid()
      modifies this`nodes, this`used, this`regions, data
      ensures Valid() && regions == [] && used == 0 && nodes == [Node(1, 1, width - 2)]
      ensures forall i | 0 <= i < data.Length :: data[i] == 0
    {
      nodes := [];
      used := 0;
      nodes := nodes + [Node(1, 1, width - 2)];
      regions := [];
      OneNode(width);
      forall i | 0 <= i < data.Length { data[i] := 0; }
    }
  }

  // ----- pixels -----

  /** Byte `k` of the pixel in column `x` and row `y`. */
  ghost function At(d: seq<byte>, width: nat, depth: nat, x: int, y: int, k: int): int {
    var o := Offset(width, depth, x, y, k);
    if 0 <= o < |d| then d[o] as int else -1
  }

  ghost function ByteAt(src: seq<byte>, o: int): int {
    if 0 <= o < |src| then src[o] as int else -1
  }

  function RowCopied(d: seq<byte>, first: nat, src: seq<byte>, from: nat, len: nat): (r: seq<byte>)
    requires first + len <= |d| && from + len <= |src|
    ensures |r| == |d|
    ensures forall j | 0 <= j < |d| :: r[j] == if first <= j < first + len then src[from + j - first] else d[j]
  {
    d[..first] + src[from..from+len] + d[first+len..]
  }

  /** `d` is `d0` with the rows of `r` replaced by those that start in `src` at
      `base` and are `stride` bytes apart. */
  ghost predicate Written(
    d0: seq<byte>, d: seq<byte>, width: nat, height: nat, depth: nat, r: Region, src: seq<byte>, base: nat,
    stride: nat) {
    && |d| == |d0|
    && forall px, py, k | 0 <= px < width && 0 <= py < height && 0 <= k < depth ::
         At(d, width, depth, px, py, k) == WrittenAt(d0, width, depth, r, src, base, stride, px, py, k)
  }

  ghost function WrittenAt(
    d0: seq<byte>, width: nat, depth: nat, r: Region, src: seq<byte>, base: nat, stride: nat, px: int, py: int,
    k: int): int {
    if Inside(r, px, py) then ByteAt(src, base + (py - r.y) * stride + ((px - r.x) * depth + k))
    else At(d0, width, depth, px, py, k)
  }

  lemma {:induction false} WritePixel(
    d0: seq<byte>, d: seq<byte>, width: nat, height: nat, depth: nat, r: Region, i: nat, src: seq<byte>, base: nat,
    stride: nat, first: int, len: int, from: int, px: int, py: int, k: int)
    requires |d| == width * height * depth && i < r.height
    requires 0 <= r.x && r.x + r.width <= width
    requires 0 <= px < width && 0 <= py < height && 0 <= k < depth
    requires first == Offset(width, depth, r.x, r.y + i, 0) && len == r.width * depth && from == base + i * stride
    requires 0 <= first <= first + len <= |d| && 0 <= from <= from + len <= |src| && 0 <= len
    requires At(d, width, depth, px, py, k)
             == WrittenAt(d0, width, depth, r.(height := i), src, base, stride, px, py, k)
    ensures At(RowCopied(d, first, src, from, len), width, depth, px, py, k) ==
            WrittenAt(d0, width, depth, r.(height := i + 1), src, base, stride, px, py, k)
  {
    OffsetBound(width, height, depth, px, py, k);
    RowRange(width, depth, r.y + i, r.x, r.width, px, py, k);
    var o := Offset(width, depth, px, py, k);
    if py == r.y + i {
      assert py - r.y == i;
      assert o == first + ((px - r.x) * depth + k);
    }
  }

  lemma {:induction false} WriteRow(
    d0: seq<byte>, d: seq<byte>, width: nat, height: nat, depth: nat, r: Region, i: nat, src: seq<byte>, base: nat,
    stride: nat)
    requires |d| == width * height * depth && 0 < depth && i < r.height
    requires 0 <= r.x && r.x + r.width <= width && 0 <= r.y && r.y + r.height <= height
    requires 0 <= i * stride && base + i * stride + r.width * depth <= |src|
    requires Written(d0, d, width, height, depth, r.(height := i), src, base, stride)
    ensures var first := Offset(width, depth, r.x, r.y + i, 0);
            && 0 <= first <= first + r.width * depth <= |d| && 0 <= r.width * depth
            && Written(d0, RowCopied(d, first, src, base + i * stride, r.width * depth), width, height, depth,
              r.(height := i + 1), src, base, stride)
  {
    RowBound(width, height, depth, r.x, r.y + i, r.width);
    MulLe(0, r.width, depth);
    var first := Offset(width, depth, r.x, r.y + i, 0);
    var d' := RowCopied(d, first, src, base + i * stride, r.width * depth);
    forall px, py, k | 0 <= px < width && 0 <= py < height && 0 <= k < depth
      ensures At(d', width, depth, px, py, k)
              == WrittenAt(d0, width, depth, r.(height := i + 1), src, base, stride, px, py, k)
    {
      WritePixel(d0, d, width, height, depth, r, i, src, base, stride, first, r.width * depth, base + i * stride, px,
        py, k);
    }
  }

  lemma {:induction false} SizeNat(width: nat, height: nat, depth: nat)
    ensures 0 <= width * height * depth
  {
    MulLe(0, width, height);
    MulLe(0, width * height, depth);
  }

  /** The rows of the old texture without its border. */
  lemma {:induction false} OldRows(width: nat, height: nat, depth: nat)
    requires 3 <= width && 3 <= height && 0 < depth
    ensures 0 <= width * depth
    ensures forall i | 0 <= i < height - 2 ::
              0 <= i * (width * depth) && width * depth + depth + i * (width * depth)
                + (width - 2) * depth <= width * height * depth
  {
    MulLe(0, width, depth);
    forall i | 0 <= i < height - 2
      ensures 0 <= i * (width * depth)
              && width * depth + depth + i * (width * depth) + (width - 2) * depth <= width * height * depth
    {
      OldRow(width, height, depth, i);
    }
  }

  lemma {:induction false} OldRow(width: nat, height: nat, depth: nat, i: int)
    requires 3 <= width && 0 < depth && 0 <= i < height - 2
    ensures 0 <= i * (width * depth)
    ensures width * depth + depth + i * (width * depth) + (width - 2) * depth <= width * height * depth
  {
    RowBound(width, height, depth, 1, i + 1, width - 2);
    OldOffset(width, depth, 1, i + 1, 0);
    MulLe(0, width, depth);
    MulLe(0, i, width * depth);
  }

  /** Where the pixels of the old texture come from. */
  lemma {:induction false} OldOffset(width: nat, depth: nat, px: int, py: int, k: int)
    ensures width * depth + depth + (py - 1) * (width * depth) + ((px - 1) * depth + k)
            == Offset(width, depth, px, py, k)
  {
    Distribute(py * width, px, depth);
    Distribute(py - 1, 1, width * depth);
    Distribute(px - 1, 1, depth);
    assert py * width * depth == py * (width * depth);
  }

  lemma {:induction false} CopiedPixels(
    d0: seq<byte>, d: seq<byte>, width: nat, height: nat, depth: nat, widthOld: nat, heightOld: nat, src: seq<byte>)
    requires 2 <= widthOld <= width && 2 <= heightOld <= height && 0 <= widthOld * depth
    requires Written(d0, d, width, height, depth, Region(1, 1, widthOld - 2, heightOld - 2), src,
             widthOld * depth + depth, widthOld * depth)
    ensures forall px, py, k | 1 <= px < widthOld - 1 && 1 <= py < heightOld - 1 && 0 <= k < depth ::
              At(d, width, depth, px, py, k) == At(src, widthOld, depth, px, py, k)
  {
    forall px, py, k | 1 <= px < widthOld - 1 && 1 <= py < heightOld - 1 && 0 <= k < depth
      ensures At(d, width, depth, px, py, k) == At(src, widthOld, depth, px, py, k)
    {
      OldOffset(widthOld, depth, px, py, k);
      assert Inside(Region(1, 1, widthOld - 2, heightOld - 2), px, py);
    }
  }

  lemma {:induction false} GainedSpace(
    nodes: seq<Node>, width: nat, width': nat, nodes': seq<Node>, rs: seq<Region>, height: nat, height': nat)
    requires 3 <= width <= width' && height <= height' && Tiled(nodes, 1, width - 1)
             && AllPlaced(nodes, width, height, rs)
    requires nodes' == if width' > width then nodes + [Node(width - 1, 1, width' - width)] else nodes
    ensures Tiled(nodes', 1, width' - 1) && AllPlaced(nodes', width', height', rs)
    ensures forall c | 1 <= c < width' - 1 :: HeightAt(nodes', c) == if c < width - 1 then HeightAt(nodes, c) else 1
  {
    if width' > width {
      var last := [Node(width - 1, 1, width' - width)];
      assert last[1..] == [];
      TiledAppend(nodes, last, 1, width - 1, width' - 1);
      forall c | 1 <= c < width' - 1 ensures HeightAt(nodes', c) == if c < width - 1 then HeightAt(nodes, c) else 1 {
        HeightAppend(nodes, last, 1, width - 1, c);
      }
    }
    forall i | 0 <= i < |rs| ensures Placed(nodes', width', height', rs[i]) {
      assert Placed(nodes, width, height, rs[i]);
    }
  }

  /** Writing one region leaves the pixels of every region disjoint from it alone. */
  lemma {:induction false} WriteKeepsOthers(
    d0: seq<byte>, d: seq<byte>, width: nat, height: nat, depth: nat, rs: seq<Region>, i: nat, j: nat,
    src: seq<byte>, base: nat, stride: nat, nodes: seq<Node>, px: int, py: int, k: int)
    requires AllPlaced(nodes, width, height, rs) && i < |rs| && j < |rs| && i != j
    requires Written(d0, d, width, height, depth, rs[i], src, base, stride)
    requires Inside(rs[j], px, py) && 0 <= k < depth
    ensures At(d, width, depth, px, py, k) == At(d0, width, depth, px, py, k)
  {
    assert Disjoint(if i < j then rs[i] else rs[j], if i < j then rs[j] else rs[i]);
    assert !Inside(rs[i], px, py);
    assert Placed(nodes, width, height, rs[j]);
  }

  lemma {:induction false} OneNode(width: nat)
    requires 3 <= width
    ensures Tiled([Node(1, 1, width - 2)], 1, width - 1)
  {
    assert [Node(1, 1, width - 2)][1..] == [];
  }

  /** In an empty atlas everything rests at the top. */
  lemma {:induction false} FreshRests(width: nat, x: int, w: nat, y: int)
    requires 3 <= width && 0 < w && 1 <= x && x + w <= width - 1
    ensures RestsAt([Node(1, 1, width - 2)], x, w, y) <==> y == 1
  {
    var nodes := [Node(1, 1, width - 2)];
    forall c | 1 <= c < width - 1 ensures HeightAt(nodes, c) == 1 {}
    assert x <= x < x + w && HeightAt(nodes, x) == 1;
  }

  lemma {:induction false} WhiteGlyph(d0: seq<byte>, d: seq<byte>, width: nat, height: nat, depth: nat)
    requires 7 <= width && 7 <= height && 0 < depth <= 4 && |d0| == width * height * depth
             && forall i | 0 <= i < |d0| :: d0[i] == 0
    requires Written(d0, d, width, height, depth, Region(1, 1, 4, 4), WHITE, 0, 0)
    ensures forall px, py, k | 0 <= px < width && 0 <= py < height && 0 <= k < depth ::
              At(d, width, depth, px, py, k) == if 1 <= px < 5 && 1 <= py < 5 then 255 else 0
  {
    forall px, py, k | 0 <= px < width && 0 <= py < height && 0 <= k < depth
      ensures At(d, width, depth, px, py, k) == if 1 <= px < 5 && 1 <= py < 5 then 255 else 0
    {
      OffsetBound(width, height, depth, px, py, k);
      if 1 <= px < 5 { SmallProduct(px - 1, depth, k); }
    }
  }

  lemma {:induction false} SmallProduct(c: nat, depth: nat, k: nat)
    requires c < 4 && depth <= 4 && k < depth
    ensures 0 <= c * depth + k < 16
  {
    MulLe(c, 3, depth);
  }

  // ----- requests without width -----

  /** The skyline stays tiled, whatever it is and wherever a rectangle is put. */
  ghost predicate AlwaysTiled(w: nat, h: nat) {
    forall nodes: seq<Node>, width: nat, height: nat, i: nat {:trigger Fit(nodes, width, height, i, w, h)} |
      Tiled(nodes, 1, width - 1) && i < |nodes| && Fit(nodes, width, height, i, w, h) >= 0 ::
      Tiled(Raised(nodes, i, w, Fit(nodes, width, height, i, w, h) + h), 1, width - 1)
  }

  /** It does exactly for rectangles that have columns, or no rows either. */
  lemma {:induction false} TiledIffWide(w: nat, h: nat)
    ensures AlwaysTiled(w, h) <==> w > 0 || h == 0
  {
    if w > 0 || h == 0 {
      forall nodes: seq<Node>, width: nat, height: nat, i: nat {:trigger Fit(nodes, width, height, i, w, h)} |
        Tiled(nodes, 1, width - 1) && i < |nodes| && Fit(nodes, width, height, i, w, h) >= 0
        ensures Tiled(Raised(nodes, i, w, Fit(nodes, width, height, i, w, h) + h), 1, width - 1)
      {
        RaisedTiled(nodes, width, height, i, w, h);
      }
    } else {
      ZeroWidth(h);
    }
  }

  lemma {:induction false} RaisedTiled(nodes: seq<Node>, width: nat, height: nat, i: nat, w: nat, h: nat)
    requires Tiled(nodes, 1, width - 1) && i < |nodes| && Fit(nodes, width, height, i, w, h) >= 0 && (w > 0 || h == 0)
    ensures Tiled(Raised(nodes, i, w, Fit(nodes, width, height, i, w, h) + h), 1, width - 1)
  {
    if w > 0 {
      FitIs(nodes, width, height, i, w, h);
      TiledSplit(nodes, 1, width - 1, i);
      RaisedIs(nodes, 1, width - 1, i, w, Fit(nodes, width, height, i, w, h) + h);
    } else {
      RaisedByNothing(nodes, 1, width - 1, i);
    }
  }

  /** A fresh atlas after a request of width 0: a node without columns. */
  lemma {:induction false} ZeroWidth(h: nat)
    requires h > 0
    ensures var nodes := [Node(1, 1, 8)];
            && Tiled(nodes, 1, 9) && Fit(nodes, 10, 10, 0, 0, h) == 1
            && Raised(nodes, 0, 0, 1 + h) == [Node(1, 1 + h, 0), Node(1, 1, 8)]
            && !Tiled([Node(1, 1 + h, 0), Node(1, 1, 8)], 1, 9)
  {
    var nodes := [Node(1, 1, 8)];
    OneNode(10);
    assert nodes[..0] == [] && nodes[0..] == nodes;
    var raised := [Node(1, 1 + h, 0), Node(1, 1, 8)];
    assert [] + [Node(1, 1 + h, 0)] + nodes == raised;
    assert raised[1..] == nodes;
    assert Merged(nodes) == nodes;
    assert [raised[0]] + nodes == raised;
  }
}
