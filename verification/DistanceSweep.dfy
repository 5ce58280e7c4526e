/** `edtaa3`: sweeps over the image until nothing improves
    (freetype-gl/edtaa3func.c). */
module DistanceSweep {
  import opened EdgeMetric
  import opened DistanceField

  // ----- the neighbours that each scan looks at -----

  /** On the way down and to the right. */
  function DownDirs(sc: Scene, x: int): seq<Dir> {
    if x == 0 then [U, UR] else if x < sc.w - 1 then [L, LU, U, UR] else [L, LU, U]
  }

  /** On the way up and to the left. */
  function UpDirs(sc: Scene, x: int): seq<Dir> {
    if x == 0 then [R, RD, D] else if x < sc.w - 1 then [R, RD, D, DL] else [D, DL]
  }

  ghost predicate AllHas(sc: Scene, x: int, y: int, dirs: seq<Dir>) {
    InImage(sc, x, y) && forall k | 0 <= k < |dirs| :: Has(sc, x, y, dirs[k])
  }

  ghost predicate AllQuiet(sc: Scene, f: Field, x: int, y: int, dirs: seq<Dir>)
    requires Sound(sc, f)
  {
    forall k | 0 <= k < |dirs| :: Quiet(sc, f, x, y, dirs[k])
  }

  ghost predicate DownQuiet(sc: Scene, f: Field, y: int)
    requires Sound(sc, f)
  {
    forall x | 0 <= x < sc.w :: AllQuiet(sc, f, x, y, DownDirs(sc, x)) && AllQuiet(sc, f, x, y, [R])
  }

  ghost predicate UpQuiet(sc: Scene, f: Field, y: int)
    requires Sound(sc, f)
  {
    forall x | 0 <= x < sc.w :: AllQuiet(sc, f, x, y, UpDirs(sc, x)) && AllQuiet(sc, f, x, y, [L])
  }

  /** No neighbour has a better offer for any pixel. */
  ghost predicate Settled(sc: Scene, f: Field)
    requires Sound(sc, f)
  {
    forall x, y, dir | Has(sc, x, y, dir) && Neighbour(dir) :: Quiet(sc, f, x, y, dir)
  }

  /** To one of the eight pixels around. */
  predicate Neighbour(dir: Dir) {
    -1 <= dir.ox <= 1 && -1 <= dir.oy <= 1 && (dir.ox != 0 || dir.oy != 0)
  }

  lemma {:induction false} NeighboursAre(dir: Dir)
    ensures Neighbour(dir) <==> dir in [U, UR, R, RD, D, DL, L, LU]
  {
  }

  /** Both scans together look at all neighbours. */
  lemma {:induction false} ScansCover(sc: Scene, f: Field)
    requires Sound(sc, f) && sc.h >= 2
    requires forall y | 1 <= y < sc.h :: DownQuiet(sc, f, y)
    requires forall y | 0 <= y < sc.h - 1 :: UpQuiet(sc, f, y)
    ensures Settled(sc, f)
  {
    forall x, y, dir | Has(sc, x, y, dir) && Neighbour(dir) ensures Quiet(sc, f, x, y, dir) {
      NeighboursAre(dir);
      if y >= 1 { DownCovers(sc, f, x, y, dir); }
      if y < sc.h - 1 { UpCovers(sc, f, x, y, dir); }
    }
  }

  lemma {:induction false} DownCovers(sc: Scene, f: Field, x: int, y: int, dir: Dir)
    requires Sound(sc, f) && Has(sc, x, y, dir) && DownQuiet(sc, f, y)
    ensures dir in [U, UR, L, LU, R] ==> Quiet(sc, f, x, y, dir)
  {
    assert AllQuiet(sc, f, x, y, DownDirs(sc, x)) && AllQuiet(sc, f, x, y, [R]);
    assert [R][0] == R;
    var ds := DownDirs(sc, x);
    assert dir in ds ==> exists k :: 0 <= k < |ds| && ds[k] == dir;
  }

  lemma {:induction false} UpCovers(sc: Scene, f: Field, x: int, y: int, dir: Dir)
    requires Sound(sc, f) && Has(sc, x, y, dir) && UpQuiet(sc, f, y)
    ensures dir in [R, RD, D, DL, L] ==> Quiet(sc, f, x, y, dir)
  {
    assert AllQuiet(sc, f, x, y, UpDirs(sc, x)) && AllQuiet(sc, f, x, y, [L]);
    assert [L][0] == L;
    var ds := UpDirs(sc, x);
    assert dir in ds ==> exists k :: 0 <= k < |ds| && ds[k] == dir;
  }

  // ----- progress -----

  /** Between two states: still sound, and changed only for the better. */
  ghost predicate Progress(sc: Scene, f: Field, f': Field, changed: bool) {
    && Sound(sc, f')
    && (if changed then Energy(f'.d) < Energy(f.d) else f' == f)
  }

  lemma {:induction false} ProgressTwice(sc: Scene, f: Field, f1: Field, f2: Field, c1: bool, c2: bool)
    requires Progress(sc, f, f1, c1) && Progress(sc, f1, f2, c2)
    ensures Progress(sc, f, f2, c1 || c2)
  {
  }

  // ----- the buffers -----

  /** The output arrays. */
  class Buffers {
    const distx: array<int>
    const disty: array<int>
    const dist: array<real>

    constructor (n: nat)
      ensures distx.Length == disty.Length == dist.Length == n && distx != disty
    {
      distx, disty, dist := new int[n], new int[n], new real[n];
    }

    ghost function F(): Field reads distx, disty, dist {
      Field(distx[..], disty[..], dist[..])
    }

    /** A pixel gets a vector and a distance. */
    method Put(i: nat, dx: int, dy: int, d: real)
      requires distx != disty && i < distx.Length == disty.Length == dist.Length
      modifies distx, disty, dist
      ensures F() == Moved(old(F()), i, dx, dy, d)
    {
      distx[i], disty[i], dist[i] := dx, dy, d;
    }

    /** What the neighbour of pixel `i` in direction `dir` offers. */
    method Candidate(sc: Scene, ghost x: int, ghost y: int, i: nat, dir: Dir) returns (c: nat, newdist: real)
      requires SceneOk(sc) && Sound(sc, F()) && Has(sc, x, y, dir) && i == At(sc.w, x, y)
      ensures c == At(sc.w, x + dir.ox, y + dir.oy) && c < |sc.img|
      ensures newdist == Offer(sc, F(), x, y, dir)
    {
      var c0 := i + (dir.oy * sc.w + dir.ox);
      ClosestIndex(sc, F(), x, y, dir, c0);
      c := c0;
      newdist := Distaa3(sc, c, distx[c], disty[c], distx[c] - dir.ox, disty[c] - dir.oy);
    }

    /** One candidate for pixel (x, y), which has index `i` and distance
        `olddist`. */
    method Try(sc: Scene, ghost x: int, ghost y: int, i: nat, dir: Dir, olddist: real)
      returns (newdist: real, changed: bool)
      requires distx != disty && SceneOk(sc) && Sound(sc, F()) && Has(sc, x, y, dir)
      requires i == At(sc.w, x, y) && i < |sc.img| && sc.img[i] < 1.0 && olddist == dist[i]
      modifies distx, disty, dist
      ensures Progress(sc, old(F()), F(), changed)
      ensures !changed ==> Quiet(sc, F(), x, y, dir)
      ensures newdist == dist[i]
    {
      var c, offer := Candidate(sc, x, y, i, dir);
      changed := offer < olddist - EPSILON;
      newdist := if changed then offer else olddist;
      if changed {
        TakeOffer(sc, F(), x, y, dir, i, c);
        Put(i, distx[c] - dir.ox, disty[c] - dir.oy, offer);
      }
    }

    /** The candidates for pixel (x, y), one after the other. */
    method Visit(sc: Scene, x: nat, y: nat, dirs: seq<Dir>) returns (changed: bool)
      requires distx != disty && SceneOk(sc) && Sound(sc, F()) && AllHas(sc, x, y, dirs)
      modifies distx, disty, dist
      ensures Progress(sc, old(F()), F(), changed)
      ensures !changed ==> AllQuiet(sc, F(), x, y, dirs)
    {
      changed := false;
      ghost var f0 := F();
      var i := y * sc.w + x;
      AtIs(sc.w, x, y);
      assert PixelOk(sc, f0, x, y);
      var olddist := dist[i];
      if olddist <= 0.0 { return; }
      InitBound(sc, i);
      var k := 0;
      while k < |dirs|
        invariant 0 <= k <= |dirs| && olddist == dist[i]
        invariant Progress(sc, f0, F(), changed)
        invariant !changed ==> AllQuiet(sc, F(), x, y, dirs[..k])
      {
        ghost var f1 := F();
        var ch;
        olddist, ch := Try(sc, x, y, i, dirs[k], olddist);
        ProgressTwice(sc, f0, f1, F(), changed, ch);
        changed := changed || ch;
        k := k + 1;
      }
      assert dirs[..k] == dirs;
    }

    /** A row from left to right, with the neighbours above and to the left. */
    method DownRight(sc: Scene, y: nat) returns (changed: bool)
      requires distx != disty && SceneOk(sc) && Sound(sc, F()) && 1 <= y < sc.h
      modifies distx, disty, dist
      ensures Progress(sc, old(F()), F(), changed)
      ensures !changed ==> forall x | 0 <= x < sc.w :: AllQuiet(sc, F(), x, y, DownDirs(sc, x))
    {
      changed := false;
      ghost var f0 := F();
      var x := 0;
      while x < sc.w
        invariant 0 <= x <= sc.w
        invariant Progress(sc, f0, F(), changed)
        invariant !changed ==> forall k | 0 <= k < x :: AllQuiet(sc, f0, k, y, DownDirs(sc, k))
      {
        ghost var f1 := F();
        var ch := Visit(sc, x, y, DownDirs(sc, x));
        ProgressTwice(sc, f0, f1, F(), changed, ch);
        changed := changed || ch;
        x := x + 1;
      }
    }

    /** Back from its last pixel but one, with the neighbour to the right. */
    method DownBack(sc: Scene, y: nat) returns (changed: bool)
      requires distx != disty && SceneOk(sc) && Sound(sc, F()) && 1 <= y < sc.h
      modifies distx, disty, dist
      ensures Progress(sc, old(F()), F(), changed)
      ensures !changed ==> forall x | 0 <= x < sc.w :: AllQuiet(sc, F(), x, y, [R])
    {
      changed := false;
      ghost var f0 := F();
      NoRight(sc, f0, y);
      var x := sc.w - 1;
      while x > 0
        invariant 0 <= x <= sc.w - 1
        invariant Progress(sc, f0, F(), changed)
        invariant !changed ==> forall k | x <= k < sc.w :: AllQuiet(sc, f0, k, y, [R])
      {
        x := x - 1;
        ghost var f1 := F();
        var ch := Visit(sc, x, y, [R]);
        ProgressTwice(sc, f0, f1, F(), changed, ch);
        changed := changed || ch;
      }
    }

    /** One row on the way down. */
    method DownRow(sc: Scene, y: nat) returns (changed: bool)
      requires distx != disty && SceneOk(sc) && Sound(sc, F()) && 1 <= y < sc.h
      modifies distx, disty, dist
      ensures Progress(sc, old(F()), F(), changed)
      ensures !changed ==> DownQuiet(sc, F(), y)
    {
      ghost var f0 := F();
      var right := DownRight(sc, y);
      ghost var f1 := F();
      var back := DownBack(sc, y);
      ProgressTwice(sc, f0, f1, F(), right, back);
      changed := right || back;
    }

    /** A row from right to left, with the neighbours below and to the right. */
    method UpLeft(sc: Scene, y: nat) returns (changed: bool)
      requires distx != disty && SceneOk(sc) && Sound(sc, F()) && y < sc.h - 1
      modifies distx, disty, dist
      ensures Progress(sc, old(F()), F(), changed)
      ensures !changed ==> forall x | 0 <= x < sc.w :: AllQuiet(sc, F(), x, y, UpDirs(sc, x))
    {
      changed := false;
      ghost var f0 := F();
      var x := sc.w;
      while x > 0
        invariant 0 <= x <= sc.w
        invariant Progress(sc, f0, F(), changed)
        invariant !changed ==> forall k | x <= k < sc.w :: AllQuiet(sc, f0, k, y, UpDirs(sc, k))
      {
        x := x - 1;
        ghost var f1 := F();
        var ch := Visit(sc, x, y, UpDirs(sc, x));
        ProgressTwice(sc, f0, f1, F(), changed, ch);
        changed := changed || ch;
      }
    }

    /** Back from its second pixel, with the neighbour to the left. */
    method UpBack(sc: Scene, y: nat) returns (changed: bool)
      requires distx != disty && SceneOk(sc) && Sound(sc, F()) && y < sc.h - 1
      modifies distx, disty, dist
      ensures Progress(sc, old(F()), F(), changed)
      ensures !changed ==> forall x | 0 <= x < sc.w :: AllQuiet(sc, F(), x, y, [L])
    {
      changed := false;
      ghost var f0 := F();
      NoLeft(sc, f0, y);
      var x := 1;
      while x < sc.w
        invariant 1 <= x <= sc.w
        invariant Progress(sc, f0, F(), changed)
        invariant !changed ==> forall k | 0 <= k < x :: AllQuiet(sc, f0, k, y, [L])
      {
        ghost var f1 := F();
        var ch := Visit(sc, x, y, [L]);
        ProgressTwice(sc, f0, f1, F(), changed, ch);
        changed := changed || ch;
        x := x + 1;
      }
    }

    /** One row on the way up. */
    method UpRow(sc: Scene, y: nat) returns (changed: bool)
      requires distx != disty && SceneOk(sc) && Sound(sc, F()) && y < sc.h - 1
      modifies distx, disty, dist
      ensures Progress(sc, old(F()), F(), changed)
      ensures !changed ==> UpQuiet(sc, F(), y)
    {
      ghost var f0 := F();
      var left := UpLeft(sc, y);
      ghost var f1 := F();
      var back := UpBack(sc, y);
      ProgressTwice(sc, f0, f1, F(), left, back);
      changed := left || back;
    }

    /** The rows from the second to the last. */
    method SweepDown(sc: Scene) returns (changed: bool)
      requires distx != disty && SceneOk(sc) && Sound(sc, F())
      modifies distx, disty, dist
      ensures Progress(sc, old(F()), F(), changed)
      ensures !changed ==> forall y | 1 <= y < sc.h :: DownQuiet(sc, F(), y)
    {
      changed := false;
      ghost var f0 := F();
      var y := 1;
      while y < sc.h
        invariant 1 <= y
        invariant Progress(sc, f0, F(), changed)
        invariant !changed ==> forall k | 1 <= k < y && k < sc.h :: DownQuiet(sc, f0, k)
      {
        ghost var f1 := F();
        var ch := DownRow(sc, y);
        ProgressTwice(sc, f0, f1, F(), changed, ch);
        changed := changed || ch;
        y := y + 1;
      }
    }

    /** The rows from the last but one to the first. */
    method SweepUp(sc: Scene) returns (changed: bool)
      requires distx != disty && SceneOk(sc) && Sound(sc, F())
      modifies distx, disty, dist
      ensures Progress(sc, old(F()), F(), changed)
      ensures !changed ==> forall y | 0 <= y < sc.h - 1 :: UpQuiet(sc, F(), y)
    {
      changed := false;
      ghost var f0 := F();
      var y := sc.h - 2;
      while y >= 0
        invariant y <= sc.h - 2
        invariant Progress(sc, f0, F(), changed)
        invariant !changed ==> forall k | y < k < sc.h - 1 && k >= 0 :: UpQuiet(sc, f0, k)
      {
        ghost var f1 := F();
        var ch := UpRow(sc, y);
        ProgressTwice(sc, f0, f1, F(), changed, ch);
        changed := changed || ch;
        y := y - 1;
      }
    }

    /** One round of the outer loop. */
    method Sweep(sc: Scene) returns (changed: bool)
      requires distx != disty && SceneOk(sc) && Sound(sc, F())
      modifies distx, disty, dist
      ensures Progress(sc, old(F()), F(), changed)
      ensures !changed && sc.h >= 2 ==> Settled(sc, F())
    {
      ghost var f0 := F();
      var down := SweepDown(sc);
      ghost var f1 := F();
      var up := SweepUp(sc);
      ProgressTwice(sc, f0, f1, F(), down, up);
      changed := down || up;
      if !changed && sc.h >= 2 { ScansCover(sc, F()); }
    }

    /** At first all pixels point to themselves. */
    method Initialize(sc: Scene)
      requires distx != disty && SceneOk(sc) && distx.Length == disty.Length == dist.Length == |sc.img|
      modifies distx, disty, dist
      ensures Sound(sc, F())
    {
      var i := 0;
      while i < dist.Length
        invariant 0 <= i <= dist.Length
        invariant forall k | 0 <= k < i :: distx[k] == 0 && disty[k] == 0 && dist[k] == Init(sc, k)
      {
        distx[i], disty[i], dist[i] := 0, 0, Init(sc, i);
        i := i + 1;
      }
      InitialSound(sc, F());
    }

    /** `edtaa3` */
    method Edtaa3(sc: Scene)
      requires distx != disty && SceneOk(sc) && distx.Length == disty.Length == dist.Length == |sc.img|
      modifies distx, disty, dist
      ensures Sound(sc, F()) && AllTrue(sc, F())
      ensures sc.h >= 2 ==> Settled(sc, F())
    {
      Initialize(sc);
      var changed := Sweep(sc);
      while changed
        invariant Sound(sc, F())
        invariant !changed && sc.h >= 2 ==> Settled(sc, F())
        decreases Energy(dist[..]), changed
      {
        changed := Sweep(sc);
      }
      SoundIsTrue(sc, F());
    }
  }

  lemma {:induction false} NoRight(sc: Scene, f: Field, y: int)
    requires Sound(sc, f)
    ensures AllQuiet(sc, f, sc.w - 1, y, [R])
  {
  }

  lemma {:induction false} NoLeft(sc: Scene, f: Field, y: int)
    requires Sound(sc, f)
    ensures AllQuiet(sc, f, 0, y, [L])
  {
  }

  lemma {:induction false} InitialSound(sc: Scene, f: Field)
    requires SceneOk(sc) && FieldSized(sc, f)
    requires forall k | 0 <= k < |f.d| :: f.dx[k] == 0 && f.dy[k] == 0 && f.d[k] == Init(sc, k)
    ensures Sound(sc, f)
  {
    forall x, y | InImage(sc, x, y) ensures PixelOk(sc, f, x, y) { AtBound(sc.w, sc.h, x, y); }
  }

  // ----- every pixel is reached -----

  /** A pixel that has a distance. */
  predicate IsSet(sc: Scene, f: Field, x: int, y: int) {
    Value(f.d, At(sc.w, x, y)) < NOT_SET
  }

  /** In images of a sensible size, what a set neighbour offers is better than
      nothing. */
  lemma {:induction false} OfferSets(sc: Scene, f: Field, x: int, y: int, dir: Dir)
    requires SceneOk(sc) && Sound(sc, f) && Settled(sc, f) && Has(sc, x, y, dir)
    requires Neighbour(dir) && sc.w + sc.h < 999998
    requires IsSet(sc, f, x + dir.ox, y + dir.oy)
    ensures IsSet(sc, f, x, y)
  {
    var cx, cy := x + dir.ox, y + dir.oy;
    var c := At(sc.w, cx, cy);
    SetMeansObject(sc, f, cx, cy);
    SetMeansObject(sc, f, x, y);
    OfferSmall(sc, cx, cy, f.dx[c], f.dy[c], dir);
    assert Quiet(sc, f, x, y, dir);
  }

  lemma {:induction false} OfferSmall(sc: Scene, cx: int, cy: int, dx: int, dy: int, dir: Dir)
    requires SceneOk(sc) && InImage(sc, cx, cy) && InImage(sc, cx - dx, cy - dy) && sc.w + sc.h < 999998
    requires Value(sc.img, At(sc.w, cx - dx, cy - dy)) > 0.0 && -1 <= dir.ox <= 1 && -1 <= dir.oy <= 1
    ensures OfferBy(sc, cx, cy, dx, dy, dir) < NOT_SET - EPSILON
  {
    var dx', dy' := dx - dir.ox, dy - dir.oy;
    DistanceBound(sc, At(sc.w, cx - dx, cy - dy), dx', dy');
    var w: int, h: int := sc.w, sc.h;
    assert -w <= dx' <= w && -h <= dy' <= h;
    assert Abs(dx' as real) + Abs(dy' as real) <= (sc.w + sc.h) as real;
  }

  lemma {:induction false} RowSet(sc: Scene, f: Field, x: int, y: int, x': int)
    requires SceneOk(sc) && Sound(sc, f) && Settled(sc, f) && sc.w + sc.h < 999998
    requires InImage(sc, x, y) && InImage(sc, x', y) && IsSet(sc, f, x, y)
    ensures IsSet(sc, f, x', y)
    decreases if x < x' then x' - x else x - x'
  {
    if x < x' {
      OfferSets(sc, f, x + 1, y, L);
      RowSet(sc, f, x + 1, y, x');
    } else if x' < x {
      OfferSets(sc, f, x - 1, y, R);
      RowSet(sc, f, x - 1, y, x');
    }
  }

  lemma {:induction false} ColumnSet(sc: Scene, f: Field, x: int, y: int, y': int)
    requires SceneOk(sc) && Sound(sc, f) && Settled(sc, f) && sc.w + sc.h < 999998
    requires InImage(sc, x, y) && InImage(sc, x, y') && IsSet(sc, f, x, y)
    ensures IsSet(sc, f, x, y')
    decreases if y < y' then y' - y else y - y'
  {
    if y < y' {
      OfferSets(sc, f, x, y + 1, U);
      ColumnSet(sc, f, x, y + 1, y');
    } else if y' < y {
      OfferSets(sc, f, x, y - 1, D);
      ColumnSet(sc, f, x, y - 1, y');
    }
  }

  /** After the transform of an image with an object, every pixel points to a
      pixel of the object. */
  lemma {:induction false} AllReached(sc: Scene, f: Field, x: int, y: int, ox: int, oy: int)
    requires SceneOk(sc) && Sound(sc, f) && Settled(sc, f) && sc.w + sc.h < 999998
    requires InImage(sc, x, y) && InImage(sc, ox, oy) && Value(sc.img, At(sc.w, ox, oy)) > 0.0
    ensures var i := At(sc.w, x, y);
            && 0 <= i < |f.d| && InImage(sc, x - f.dx[i], y - f.dy[i])
            && Value(sc.img, At(sc.w, x - f.dx[i], y - f.dy[i])) > 0.0
  {
    assert PixelOk(sc, f, ox, oy);
    InitBound(sc, At(sc.w, ox, oy));
    assert IsSet(sc, f, ox, oy);
    RowSet(sc, f, ox, oy, x);
    ColumnSet(sc, f, x, oy, y);
    SetMeansObject(sc, f, x, y);
  }
}
