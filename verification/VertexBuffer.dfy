/** Vertex buffers: items with vertices and indices in two common vectors
    (freetype-gl/vertex-buffer.c). */
module VertexBuffer {

  /** The vertices and the indices of an item (`ivec4`). */
  datatype Item = Item(vstart: int, vcount: int, istart: int, icount: int)

  /** `a` comes before `b` in both vectors. */
  predicate Before(a: Item, b: Item) {
    a.vstart + a.vcount <= b.vstart && a.istart + a.icount <= b.istart
  }

  /** The item has a place in the vectors, and its indices point to its vertices. */
  ghost predicate ItemOk(it: Item, size: nat, indices: seq<int>) {
    && it.vcount > 0 && it.icount > 0
    && 0 <= it.vstart && it.vstart + it.vcount <= size
    && 0 <= it.istart && it.istart + it.icount <= |indices|
    && forall k | it.istart <= k < it.istart + it.icount :: it.vstart <= indices[k] < it.vstart + it.vcount
  }

  predicate HasVertex(it: Item, v: int) {
    it.vstart <= v < it.vstart + it.vcount
  }

  predicate HasIndex(it: Item, k: int) {
    it.istart <= k < it.istart + it.icount
  }

  predicate VertexOwned(items: seq<Item>, v: int) {
    exists i :: 0 <= i < |items| && HasVertex(items[i], v)
  }

  predicate IndexOwned(items: seq<Item>, k: int) {
    exists i :: 0 <= i < |items| && HasIndex(items[i], k)
  }

  ghost predicate Covered(size: int, indices: int, items: seq<Item>) {
    && (forall v | 0 <= v < size :: VertexOwned(items, v))
    && (forall k | 0 <= k < indices :: IndexOwned(items, k))
  }

  /** The items partition both vectors. */
  ghost predicate Partition(size: nat, indices: seq<int>, items: seq<Item>) {
    && (forall i | 0 <= i < |items| :: ItemOk(items[i], size, indices))
    && (forall i, j | 0 <= i < j < |items| :: Before(items[i], items[j]) || Before(items[j], items[i]))
    && Covered(size, |indices|, items)
  }

  /** The vertices that are drawn for an item, in order. */
  function Drawn<V>(vertices: seq<V>, indices: seq<int>, it: Item): (d: seq<V>)
    requires ItemOk(it, |vertices|, indices)
    ensures |d| == it.icount
    ensures forall k | 0 <= k < it.icount :: d[k] == vertices[indices[it.istart + k]]
  {
    seq(it.icount, k requires 0 <= k < it.icount => vertices[indices[it.istart + k]])
  }

  /** What all items draw. */
  function Drawings<V>(vertices: seq<V>, indices: seq<int>, items: seq<Item>): (d: seq<seq<V>>)
    requires Partition(|vertices|, indices, items)
    ensures |d| == |items|
    ensures forall i | 0 <= i < |items| :: d[i] == Drawn(vertices, indices, items[i])
  {
    seq(|items|, i requires 0 <= i < |items| => Drawn(vertices, indices, items[i]))
  }

  // ----- appending -----

  lemma {:induction false} DrawnAppend<V>(vertices: seq<V>, indices: seq<int>, it: Item, vs: seq<V>, ks: seq<int>)
    requires ItemOk(it, |vertices|, indices)
    ensures ItemOk(it, |vertices + vs|, indices + ks)
    ensures Drawn(vertices + vs, indices + ks, it) == Drawn(vertices, indices, it)
  {
  }

  function Moved(indices: seq<int>, d: int): (r: seq<int>)
    ensures |r| == |indices| && forall k | 0 <= k < |r| :: r[k] == indices[k] + d
  {
    seq(|indices|, k requires 0 <= k < |indices| => indices[k] + d)
  }

  function Inserted(items: seq<Item>, at: nat, it: Item): seq<Item>
    requires at <= |items|
  {
    items[..at] + [it] + items[at..]
  }

  lemma {:induction false} InsertPartition(
    size: nat, indices: seq<int>, items: seq<Item>, at: nat, vcount: nat, ks: seq<int>)
    requires Partition(size, indices, items) && at <= |items| && vcount > 0 && |ks| > 0
    requires forall k | 0 <= k < |ks| :: 0 <= ks[k] < vcount
    ensures Partition(size + vcount, indices + Moved(ks, size),
            Inserted(items, at, Item(size, vcount, |indices|, |ks|)))
  {
    var it := Item(size, vcount, |indices|, |ks|);
    var items', indices' := Inserted(items, at, it), indices + Moved(ks, size);
    forall i | 0 <= i < |items'| ensures ItemOk(items'[i], size + vcount, indices') {
      if i != at { assert items'[i] == items[if i < at then i else i - 1]; }
    }
    forall i, j | 0 <= i < j < |items'| ensures Before(items'[i], items'[j]) || Before(items'[j], items'[i]) {
      if i != at { assert items'[i] == items[if i < at then i else i - 1]; }
      if j != at { assert items'[j] == items[if j < at then j else j - 1]; }
    }
    InsertCovers(size, |indices|, items, at, it);
  }

  lemma {:induction false} InsertCovers(size: nat, n: nat, items: seq<Item>, at: nat, it: Item)
    requires Covered(size, n, items) && at <= |items| && it.vstart == size && it.istart == n && it.vcount >= 0
             && it.icount >= 0
    ensures Covered(size + it.vcount, n + it.icount, Inserted(items, at, it))
  {
    var items' := Inserted(items, at, it);
    assert items'[at] == it;
    assert forall i | 0 <= i < |items| :: items'[if i < at then i else i + 1] == items[i];
    forall v | 0 <= v < size + it.vcount ensures VertexOwned(items', v) {
      if v >= size {
        assert HasVertex(items'[at], v);
      } else {
        assert VertexOwned(items, v);
        var i :| 0 <= i < |items| && HasVertex(items[i], v);
        assert HasVertex(items'[if i < at then i else i + 1], v);
      }
    }
    forall k | 0 <= k < n + it.icount ensures IndexOwned(items', k) {
      if k >= n {
        assert HasIndex(items'[at], k);
      } else {
        assert IndexOwned(items, k);
        var i :| 0 <= i < |items| && HasIndex(items[i], k);
        assert HasIndex(items'[if i < at then i else i + 1], k);
      }
    }
  }

  // ----- erasing -----

  /** An item when item `e` is erased. */
  function Closed(it: Item, e: Item): Item {
    if it.vstart > e.vstart then it.(vstart := it.vstart - e.vcount, istart := it.istart - e.icount) else it
  }

  function ClosedAll(items: seq<Item>, e: Item): (r: seq<Item>)
    ensures |r| == |items| && forall i | 0 <= i < |r| :: r[i] == Closed(items[i], e)
  {
    seq(|items|, i requires 0 <= i < |items| => Closed(items[i], e))
  }

  /** Without the elements from `a` on, before `b`. */
  function Cut<T>(s: seq<T>, a: int, b: int): seq<T>
    requires 0 <= a <= b <= |s|
  {
    s[..a] + s[b..]
  }

  function Renumbered(indices: seq<int>, first: int, count: int): (r: seq<int>)
    ensures |r| == |indices| && forall k | 0 <= k < |r| ::
            r[k] == if indices[k] > first then indices[k] - count else indices[k]
  {
    seq(|indices|, k requires 0 <= k < |indices| => if indices[k] > first then indices[k] - count else indices[k])
  }

  /** The indices when item `e` is erased. */
  function IndicesWithout(indices: seq<int>, e: Item): seq<int>
    requires 0 <= e.istart && 0 <= e.icount && e.istart + e.icount <= |indices|
  {
    Renumbered(Cut(indices, e.istart, e.istart + e.icount), e.vstart, e.vcount)
  }

  /** An index of another item follows its vertex. */
  lemma {:induction false} ClosedIndex(indices: seq<int>, e: Item, it: Item, size: nat, k: int)
    requires ItemOk(e, size, indices) && ItemOk(it, size, indices) && (Before(e, it) || Before(it, e))
             && 0 <= k < it.icount
    ensures var ks, it' := IndicesWithout(indices, e), Closed(it, e);
            && 0 <= it'.istart + k < |ks|
            && ks[it'.istart + k] == indices[it.istart + k] - (if it.vstart > e.vstart then e.vcount else 0)
  {
    assert it.vstart <= indices[it.istart + k] < it.vstart + it.vcount;
    assert Before(e, it) == (it.vstart > e.vstart);
    var k' := Closed(it, e).istart + k;
    assert Cut(indices, e.istart, e.istart + e.icount)[k'] == indices[it.istart + k];
  }

  /** Another item keeps its place and its vertices. */
  lemma {:induction false} ClosedDrawn<V>(vertices: seq<V>, indices: seq<int>, e: Item, it: Item)
    requires ItemOk(e, |vertices|, indices) && ItemOk(it, |vertices|, indices) && (Before(e, it) || Before(it, e))
    ensures var vs, ks := Cut(vertices, e.vstart, e.vstart + e.vcount), IndicesWithout(indices, e);
            && ItemOk(Closed(it, e), |vs|, ks) && Drawn(vs, ks, Closed(it, e)) == Drawn(vertices, indices, it)
  {
    var vs, ks, it' := Cut(vertices, e.vstart, e.vstart + e.vcount), IndicesWithout(indices, e), Closed(it, e);
    forall k | it'.istart <= k < it'.istart + it'.icount ensures it'.vstart <= ks[k] < it'.vstart + it'.vcount {
      ClosedIndex(indices, e, it, |vertices|, k - it'.istart);
    }
    forall k | 0 <= k < it.icount ensures Drawn(vs, ks, it')[k] == Drawn(vertices, indices, it)[k] {
      ClosedIndex(indices, e, it, |vertices|, k);
    }
  }

  lemma {:induction false} CloseKeepsOrder(a: Item, b: Item, e: Item)
    requires Before(a, b) && (Before(e, a) || Before(a, e)) && (Before(e, b) || Before(b, e))
    requires a.vcount > 0 && b.vcount > 0 && e.vcount > 0 && e.icount > 0 && a.icount > 0 && b.icount > 0
    ensures Before(Closed(a, e), Closed(b, e))
  {
  }

  /** Item `i` of the remaining ones in terms of all. */
  function Old(i: int, at: int): int {
    if i < at then i else i + 1
  }

  lemma {:induction false} EraseCovers(size: nat, n: nat, items: seq<Item>, at: nat, left: seq<Item>)
    requires at < |items| && Covered(size, n, items) && |left| == |items| - 1
    requires var e := items[at];
             && 0 <= e.vstart && 0 <= e.istart && e.vcount > 0 && e.icount > 0 && e.vstart + e.vcount <= size
               && e.istart + e.icount <= n
             && (forall i | 0 <= i < |left| ::
               left[i] == Closed(items[Old(i, at)], e) && items[Old(i, at)].vcount > 0 && items[Old(i, at)].icount > 0)
             && (forall i | 0 <= i < |left| :: Before(e, items[Old(i, at)]) || Before(items[Old(i, at)], e))
    ensures Covered(size - items[at].vcount, n - items[at].icount, left)
  {
    var e := items[at];
    forall v | 0 <= v < size - e.vcount ensures VertexOwned(left, v) {
      var v0 := if v < e.vstart then v else v + e.vcount;
      assert VertexOwned(items, v0);
      var j :| 0 <= j < |items| && HasVertex(items[j], v0);
      assert j != at;
      var i := if j < at then j else j - 1;
      assert Old(i, at) == j && left[i] == Closed(items[j], e);
      assert HasVertex(left[i], v);
    }
    forall k | 0 <= k < n - e.icount ensures IndexOwned(left, k) {
      var k0 := if k < e.istart then k else k + e.icount;
      assert IndexOwned(items, k0);
      var j :| 0 <= j < |items| && HasIndex(items[j], k0);
      assert j != at;
      var i := if j < at then j else j - 1;
      assert Old(i, at) == j && left[i] == Closed(items[j], e);
      assert HasIndex(left[i], k);
    }
  }

  function VerticesWithout<V>(vertices: seq<V>, e: Item): seq<V>
    requires 0 <= e.vstart && 0 <= e.vcount && e.vstart + e.vcount <= |vertices|
  {
    Cut(vertices, e.vstart, e.vstart + e.vcount)
  }

  function ItemsWithout(items: seq<Item>, at: nat): seq<Item>
    requires at < |items|
  {
    Cut(ClosedAll(items, items[at]), at, at + 1)
  }

  lemma {:induction false} EraseDrawn<V>(
    vertices: seq<V>, indices: seq<int>, items: seq<Item>, at: nat, e: Item, i: nat)
    requires Partition(|vertices|, indices, items) && at < |items| && e == items[at] && i < |items| - 1
    ensures var vs, ks, it := VerticesWithout(vertices, e), IndicesWithout(indices, e), ItemsWithout(items, at)[i];
            && it == Closed(items[Old(i, at)], e) && ItemOk(it, |vs|, ks)
            && Drawn(vs, ks, it) == Drawn(vertices, indices, items[Old(i, at)])
  {
    ClosedDrawn(vertices, indices, e, items[Old(i, at)]);
  }

  lemma {:induction false} EraseOrder(size: nat, indices: seq<int>, items: seq<Item>, at: nat, i: nat, j: nat)
    requires Partition(size, indices, items) && at < |items| && i < j < |items| - 1
    ensures var left := ItemsWithout(items, at); Before(left[i], left[j]) || Before(left[j], left[i])
  {
    var e := items[at];
    var left := ItemsWithout(items, at);
    assert left[i] == Closed(items[Old(i, at)], e) && left[j] == Closed(items[Old(j, at)], e);
    PairOrder(size, indices, items, Old(i, at), Old(j, at), at);
  }

  lemma {:induction false} PairOrder(size: nat, indices: seq<int>, items: seq<Item>, i: nat, j: nat, at: nat)
    requires Partition(size, indices, items) && i < j < |items| && at < |items| && i != at && j != at
    ensures var a, b := Closed(items[i], items[at]), Closed(items[j], items[at]); Before(a, b) || Before(b, a)
  {
    if Before(items[i], items[j]) {
      CloseKeepsOrder(items[i], items[j], items[at]);
    } else {
      CloseKeepsOrder(items[j], items[i], items[at]);
    }
  }

  lemma {:induction false} ErasePartition<V>(vertices: seq<V>, indices: seq<int>, items: seq<Item>, at: nat, e: Item)
    requires Partition(|vertices|, indices, items) && at < |items| && e == items[at]
    ensures Partition(|VerticesWithout(vertices, e)|, IndicesWithout(indices, e), ItemsWithout(items, at))
    ensures Drawings(VerticesWithout(vertices, e), IndicesWithout(indices, e), ItemsWithout(items, at)) ==
            Cut(Drawings(vertices, indices, items), at, at + 1)
  {
    var vs, ks, left := VerticesWithout(vertices, e), IndicesWithout(indices, e), ItemsWithout(items, at);
    forall i | 0 <= i < |left|
      ensures left[i] == Closed(items[Old(i, at)], e) && ItemOk(left[i], |vs|, ks)
      ensures Drawn(vs, ks, left[i]) == Drawn(vertices, indices, items[Old(i, at)])
    {
      EraseDrawn(vertices, indices, items, at, e, i);
    }
    forall i, j | 0 <= i < j < |left| ensures Before(left[i], left[j]) || Before(left[j], left[i]) {
      EraseOrder(|vertices|, indices, items, at, i, j);
    }
    EraseCovers(|vertices|, |indices|, items, at, left);
  }

  // ----- the buffer -----

  class Buffer<V> {
    var vertices: seq<V>
    var indices: seq<int>
    var items: seq<Item>

    ghost predicate Valid()
      reads this
    {
      Partition(|vertices|, indices, items)
    }

    ghost function Shown(): seq<seq<V>>
      requires Valid()
      reads this
    {
      Drawings(vertices, indices, items)
    }

    constructor ()
      ensures Valid() && items == []
    {
      vertices, indices, items := [], [], [];
    }

    /** `vertex_buffer_insert`, with indices relative to the new vertices; the
        items stay a partition exactly if those exist.  There must be vertices
        and indices, or the assertion of `vector_push_back_data` on its count
        fails (freetype-gl/vector.c:291). */
    method Insert(index: nat, vs: seq<V>, ks: seq<int>) returns (r: nat)
      requires Valid() && index <= |items| && |vs| > 0 && |ks| > 0
      modifies this
      ensures r == index && vertices == old(vertices) + vs && indices == old(indices) + Moved(ks, |old(vertices)|)
      ensures items == Inserted(old(items), index, Item(|old(vertices)|, |vs|, |old(indices)|, |ks|))
      ensures Valid() <==> InRange(ks, |vs|)
      ensures InRange(ks, |vs|) ==> Shown() == old(Shown())[..index] + [Picked(vs, ks)] + old(Shown())[index..]
    {
      ghost var vertices0, indices0, items0 := vertices, indices, items;
      var vstart := |vertices|;
      vertices := vertices + vs;
      var istart := |indices|;
      indices := indices + ks;
      var i := 0;
      while i < |ks|
        invariant 0 <= i <= |ks| && |indices| == istart + |ks|
        invariant vertices == vertices0 + vs && items == items0
        invariant forall k | 0 <= k < |indices| ::
                  indices[k] == (indices0 + ks)[k] + (if istart <= k < istart + i then vstart else 0)
      {
        indices := indices[istart + i := indices[istart + i] + vstart];
        i := i + 1;
      }
      assert indices == indices0 + Moved(ks, vstart);
      InsertIff(vertices0, indices0, items0, index, vs, ks);
      items := items[..index] + [Item(vstart, |vs|, istart, |ks|)] + items[index..];
      r := index;
    }

    /** `vertex_buffer_push_back` */
    method PushBack(vs: seq<V>, ks: seq<int>) returns (r: nat)
      requires Valid() && |vs| > 0 && |ks| > 0
      modifies this
      ensures r == old(|items|) && (Valid() <==> InRange(ks, |vs|))
      ensures InRange(ks, |vs|) ==> Shown() == old(Shown()) + [Picked(vs, ks)]
    {
      r := Insert(|items|, vs, ks);
    }

    /** `vertex_buffer_erase_indices` */
    method EraseIndices(first: nat, last: nat)
      requires first < last <= |indices|
      modifies this`indices
      ensures indices == Cut(old(indices), first, last)
    {
      indices := indices[..first] + indices[last..];
    }

    /** `vertex_buffer_erase_vertices` */
    method EraseVertices(first: nat, last: nat)
      requires first < last <= |vertices|
      modifies this`indices, this`vertices
      ensures vertices == Cut(old(vertices), first, last)
      ensures indices == Renumbered(old(indices), first, last - first)
    {
      var i := 0;
      while i < |indices|
        invariant 0 <= i <= |indices| == |old(indices)| && vertices == old(vertices)
        invariant forall k | 0 <= k < |indices| ::
                  indices[k] == if k < i then Renumbered(old(indices), first, last - first)[k] else old(indices)[k]
      {
        if indices[i] > first { indices := indices[i := indices[i] - (last - first)]; }
        i := i + 1;
      }
      vertices := vertices[..first] + vertices[last..];
    }

    /** `vertex_buffer_erase`: the other items draw what they did. */
    method Erase(index: nat)
      requires Valid() && index < |items|
      modifies this
      ensures Valid() && Shown() == Cut(old(Shown()), index, index + 1)
    {
      var e := items[index];
      ErasePartition(vertices, indices, items, index, e);
      CloseItems(e);
      EraseIndices(e.istart, e.istart + e.icount);
      EraseVertices(e.vstart, e.vstart + e.vcount);
      items := items[..index] + items[index + 1..];
    }

    /** The loop over the items. */
    method CloseItems(e: Item)
      modifies this`items
      ensures items == ClosedAll(old(items), e)
    {
      var i := 0;
      while i < |items|
        invariant 0 <= i <= |items| == |old(items)|
        invariant forall k | 0 <= k < |items| :: items[k] == if k < i then Closed(old(items)[k], e) else old(items)[k]
      {
        var it := items[i];
        if it.vstart > e.vstart {
          items := items[i := it.(vstart := it.vstart - e.vcount, istart := it.istart - e.icount)];
        }
        i := i + 1;
      }
    }
  }

  /** All indices are those of vertices. */
  ghost predicate InRange(ks: seq<int>, n: nat) {
    forall k | 0 <= k < |ks| :: 0 <= ks[k] < n
  }

  function Picked<V>(vs: seq<V>, ks: seq<int>): (d: seq<V>)
    requires InRange(ks, |vs|)
    ensures |d| == |ks| && forall k | 0 <= k < |d| :: d[k] == vs[ks[k]]
  {
    seq(|ks|, k requires 0 <= k < |ks| => vs[ks[k]])
  }

  lemma {:induction false} InsertIff<V>(
    vertices: seq<V>, indices: seq<int>, items: seq<Item>, at: nat, vs: seq<V>, ks: seq<int>)
    requires Partition(|vertices|, indices, items) && at <= |items| && |vs| > 0 && |ks| > 0
    ensures var vs', ks' := vertices + vs, indices + Moved(ks, |vertices|);
            var items' := Inserted(items, at, Item(|vertices|, |vs|, |indices|, |ks|));
            && (Partition(|vs'|, ks', items') <==> InRange(ks, |vs|))
            && (InRange(ks, |vs|) ==>
              Drawings(vs', ks', items') == Drawings(vertices, indices, items)[..at] + [Picked(vs, ks)]
              + Drawings(vertices, indices, items)[at..])
  {
    var ks', items' := indices + Moved(ks, |vertices|), Inserted(items, at, Item(|vertices|, |vs|, |indices|, |ks|));
    if InRange(ks, |vs|) {
      InsertPartition(|vertices|, indices, items, at, |vs|, ks);
      InsertShows(vertices, indices, items, at, vs, ks);
    }
    if Partition(|vertices + vs|, ks', items') {
      assert ItemOk(items'[at], |vertices + vs|, ks');
      ItemRange(|vertices|, |vs|, indices, ks);
    }
  }

  lemma {:induction false} ItemRange(size: nat, vcount: nat, indices: seq<int>, ks: seq<int>)
    requires ItemOk(Item(size, vcount, |indices|, |ks|), size + vcount, indices + Moved(ks, size))
    ensures InRange(ks, vcount)
  {
    forall k | 0 <= k < |ks| ensures 0 <= ks[k] < vcount {
      assert (indices + Moved(ks, size))[|indices| + k] == ks[k] + size;
    }
  }

  lemma {:induction false} InsertShows<V>(
    vertices: seq<V>, indices: seq<int>, items: seq<Item>, at: nat, vs: seq<V>, ks: seq<int>)
    requires Partition(|vertices|, indices, items) && at <= |items| && |vs| > 0 && |ks| > 0
    requires InRange(ks, |vs|)
    requires Partition(|vertices + vs|, indices + Moved(ks, |vertices|),
             Inserted(items, at, Item(|vertices|, |vs|, |indices|, |ks|)))
    ensures Drawings(vertices + vs, indices + Moved(ks, |vertices|),
            Inserted(items, at, Item(|vertices|, |vs|, |indices|, |ks|))) ==
            Drawings(vertices, indices, items)[..at] + [Picked(vs, ks)] + Drawings(vertices, indices, items)[at..]
  {
    var it := Item(|vertices|, |vs|, |indices|, |ks|);
    var vs', ks', items' := vertices + vs, indices + Moved(ks, |vertices|), Inserted(items, at, it);
    forall i | 0 <= i < |items|
      ensures ItemOk(items[i], |vs'|, ks') && Drawn(vs', ks', items[i]) == Drawn(vertices, indices, items[i])
    {
      DrawnAppend(vertices, indices, items[i], vs, Moved(ks, |vertices|));
    }
    assert items'[at] == it;
    assert Drawn(vs', ks', it) == Picked(vs, ks);
    assert forall i | 0 <= i < |items'| && i != at :: items'[i] == items[if i < at then i else i - 1];
  }
}
