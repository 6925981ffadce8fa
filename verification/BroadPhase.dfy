/** Collision search in the game: a grid of boxes over the scene, the triangles of an object by box, and the search
    for a pair that meets, box by box. Coordinates are reals; the exact triangle test is left open. */
module BroadPhase {
  import opened Wrappers

  datatype Point = Point(x: real, y: real, z: real)
  {
    function Plus(o: Point): Point
    {
      Point(x + o.x, y + o.y, z + o.z)
    }

    function Times(o: Point): Point
    {
      Point(x * o.x, y * o.y, z * o.z)
    }
  }

  datatype Box = Box(min: Point, max: Point)

  /** BBox3f::intersects */
  function Intersects(b: Box, o: Box): (r: bool)
  {
    if b.min.x > o.max.x || b.max.x < o.min.x then false
    else if b.min.y > o.max.y || b.max.y < o.min.y then false
    else if b.min.z > o.max.z || b.max.z < o.min.z then false
    else true
  }

  predicate Within(p: Point, b: Box)
  {
    && b.min.x <= p.x <= b.max.x
    && b.min.y <= p.y <= b.max.y
    && b.min.z <= p.z <= b.max.z
  }

  /** Boxes that contain a point. */
  predicate Proper(b: Box)
  {
    b.min.x <= b.max.x && b.min.y <= b.max.y && b.min.z <= b.max.z
  }

  function Min(a: real, b: real): real
  {
    if b < a then b else a
  }

  function Max(a: real, b: real): real
  {
    if a < b then b else a
  }

  /** The common point with the smallest coordinates, if there is one. */
  function Corner(b: Box, o: Box): Point
  {
    Point(Max(b.min.x, o.min.x), Max(b.min.y, o.min.y), Max(b.min.z, o.min.z))
  }

  /** The test of the four comparisons is right: boxes intersect exactly when they share a point. */
  lemma IntersectsExact(b: Box, o: Box)
    requires Proper(b) && Proper(o)
    ensures Intersects(b, o) <==> exists p :: Within(p, b) && Within(p, o)
  {
    if Intersects(b, o) {
      assert Within(Corner(b, o), b) && Within(Corner(b, o), o);
    }
  }

  // ---------------------------------------------------------------------------------------------
  // The grid
  // ---------------------------------------------------------------------------------------------

  /** Where slice i starts. */
  function Start(lo: real, inc: real, i: nat): real
  {
    lo + inc * (i as real)
  }

  lemma StartNext(lo: real, inc: real, i: nat)
    ensures Start(lo, inc, i + 1) == Start(lo, inc, i) + inc
  {
    assert inc * ((i + 1) as real) == inc * (i as real) + inc;
  }

  /** How many slices the loop makes; none when the side has no length. */
  function Slices(lo: real, hi: real, n: nat): nat
  {
    if lo < hi then n else 0
  }

  /** The loop condition holds exactly for the starts of the slices. */
  lemma StartBelow(lo: real, hi: real, n: nat, inc: real, i: nat)
    requires n > 0 && inc == (hi - lo) / (n as real) && i <= Slices(lo, hi, n)
    ensures Start(lo, inc, i) < hi <==> i < Slices(lo, hi, n)
  {
    assert inc * (n as real) == hi - lo;
    if lo < hi {
      var rest := n - i;
      assert inc > 0.0;
      assert inc * (i as real) + inc * (rest as real) == hi - lo by { Distribute(inc, i as real, rest as real); }
      if i < n { Positive(inc, rest as real); }
    } else {
      assert inc * (0 as real) == 0.0;
    }
  }

  lemma Distribute(a: real, b: real, c: real)
    ensures a * (b + c) == a * b + a * c
  {
  }

  lemma Positive(a: real, b: real)
    requires a > 0.0 && b > 0.0
    ensures a * b > 0.0
  {
  }

  type Side = nat -> real

  /** The starts of the slices of a side. */
  function Starts(lo: real, inc: real): Side
  {
    (i: nat) => Start(lo, inc, i)
  }

  function CellAt(x: real, y: real, z: real, inc: Point): Box
  {
    Box(Point(x, y, z), Point(x + inc.x, y + inc.y, z + inc.z))
  }

  /** What f gives for the first n numbers, in a row. */
  function Gathered(f: nat -> seq<Box>, n: nat): seq<Box>
  {
    if n == 0 then [] else Gathered(f, n - 1) + f(n - 1)
  }

  /** A column of boxes, a sheet of columns, a grid of sheets. */
  function Cells(fz: Side, inc: Point, x: real, y: real): nat -> seq<Box>
  {
    (k: nat) => [CellAt(x, y, fz(k), inc)]
  }

  function Columns(fy: Side, fz: Side, inc: Point, x: real, nz: nat): nat -> seq<Box>
  {
    (j: nat) => Gathered(Cells(fz, inc, x, fy(j)), nz)
  }

  function Sheets(fx: Side, fy: Side, fz: Side, inc: Point, ny: nat, nz: nat): nat -> seq<Box>
  {
    (i: nat) => Gathered(Columns(fy, fz, inc, fx(i), nz), ny)
  }

  function Increments(box: Box, nx: nat, ny: nat, nz: nat): Point
    requires nx > 0 && ny > 0 && nz > 0
  {
    Point((box.max.x - box.min.x) / (nx as real),
          (box.max.y - box.min.y) / (ny as real),
          (box.max.z - box.min.z) / (nz as real))
  }

  function Partitions(box: Box, nx: nat, ny: nat, nz: nat): seq<Box>
    requires nx > 0 && ny > 0 && nz > 0
  {
    var inc := Increments(box, nx, ny, nz);
    Gathered(Sheets(Starts(box.min.x, inc.x), Starts(box.min.y, inc.y), Starts(box.min.z, inc.z), inc,
                    Slices(box.min.y, box.max.y, ny), Slices(box.min.z, box.max.z, nz)),
             Slices(box.min.x, box.max.x, nx))
  }

  method PartitionZ(box: Box, inc: Point, nz: nat, x: real, y: real, bboxes: seq<Box>) returns (r: seq<Box>)
    requires nz > 0 && inc.z == (box.max.z - box.min.z) / (nz as real)
    ensures r == bboxes + Gathered(Cells(Starts(box.min.z, inc.z), inc, x, y), Slices(box.min.z, box.max.z, nz))
  {
    r := bboxes;
    var currZ := box.min.z;
    ghost var k := 0;
    StartBelow(box.min.z, box.max.z, nz, inc.z, 0);
    while currZ < box.max.z
      invariant k <= Slices(box.min.z, box.max.z, nz) && currZ == Start(box.min.z, inc.z, k)
      invariant currZ < box.max.z <==> k < Slices(box.min.z, box.max.z, nz)
      invariant r == bboxes + Gathered(Cells(Starts(box.min.z, inc.z), inc, x, y), k)
      decreases nz - k
    {
      r := r + [Box(Point(x, y, currZ), Point(x + inc.x, y + inc.y, currZ + inc.z))];
      assert Cells(Starts(box.min.z, inc.z), inc, x, y)(k) == [CellAt(x, y, currZ, inc)];
      StartNext(box.min.z, inc.z, k);
      StartBelow(box.min.z, box.max.z, nz, inc.z, k + 1);
      currZ := currZ + inc.z;
      k := k + 1;
    }
  }

  method PartitionY(box: Box, inc: Point, ny: nat, nz: nat, x: real, bboxes: seq<Box>) returns (r: seq<Box>)
    requires ny > 0 && nz > 0
    requires inc.y == (box.max.y - box.min.y) / (ny as real) && inc.z == (box.max.z - box.min.z) / (nz as real)
    ensures r == bboxes + Gathered(Columns(Starts(box.min.y, inc.y), Starts(box.min.z, inc.z), inc, x,
                                           Slices(box.min.z, box.max.z, nz)),
                                   Slices(box.min.y, box.max.y, ny))
  {
    r := bboxes;
    var currY := box.min.y;
    ghost var j := 0;
    StartBelow(box.min.y, box.max.y, ny, inc.y, 0);
    while currY < box.max.y
      invariant j <= Slices(box.min.y, box.max.y, ny) && currY == Start(box.min.y, inc.y, j)
      invariant currY < box.max.y <==> j < Slices(box.min.y, box.max.y, ny)
      invariant r == bboxes + Gathered(Columns(Starts(box.min.y, inc.y), Starts(box.min.z, inc.z), inc, x,
                                               Slices(box.min.z, box.max.z, nz)), j)
      decreases ny - j
    {
      r := PartitionZ(box, inc, nz, x, currY, r);
      StartNext(box.min.y, inc.y, j);
      StartBelow(box.min.y, box.max.y, ny, inc.y, j + 1);
      currY := currY + inc.y;
      j := j + 1;
    }
  }

  /** BBox3f::partition */
  method Partition(box: Box, nx: nat, ny: nat, nz: nat) returns (r: seq<Box>)
    requires nx > 0 && ny > 0 && nz > 0
    ensures r == Partitions(box, nx, ny, nz)
  {
    var inc := Increments(box, nx, ny, nz);
    r := [];
    var currX := box.min.x;
    ghost var i := 0;
    StartBelow(box.min.x, box.max.x, nx, inc.x, 0);
    while currX < box.max.x
      invariant i <= Slices(box.min.x, box.max.x, nx) && currX == Start(box.min.x, inc.x, i)
      invariant currX < box.max.x <==> i < Slices(box.min.x, box.max.x, nx)
      invariant r == Gathered(Sheets(Starts(box.min.x, inc.x), Starts(box.min.y, inc.y), Starts(box.min.z, inc.z), inc,
                                      Slices(box.min.y, box.max.y, ny), Slices(box.min.z, box.max.z, nz)), i)
      decreases nx - i
    {
      r := PartitionY(box, inc, ny, nz, currX, r);
      StartNext(box.min.x, inc.x, i);
      StartBelow(box.min.x, box.max.x, nx, inc.x, i + 1);
      currX := currX + inc.x;
      i := i + 1;
    }
  }

  // ---------------------------------------------------------------------------------------------
  // The grid covers the box
  // ---------------------------------------------------------------------------------------------

  lemma {:induction false} InGathered(f: nat -> seq<Box>, n: nat, i: nat, c: Box)
    requires i < n && c in f(i)
    ensures c in Gathered(f, n)
  {
    if i < n - 1 { InGathered(f, n - 1, i, c); }
  }

  lemma {:induction false} FromGathered(f: nat -> seq<Box>, n: nat, c: Box) returns (i: nat)
    requires c in Gathered(f, n)
    ensures i < n && c in f(i)
  {
    if c in f(n - 1) { i := n - 1; } else { i := FromGathered(f, n - 1, c); }
  }

  /** The slice that v lies in. */
  lemma {:induction false} SliceOf(lo: real, inc: real, n: nat, v: real) returns (i: nat)
    requires n > 0 && lo <= v <= Start(lo, inc, n)
    ensures i < n && Start(lo, inc, i) <= v <= Start(lo, inc, i) + inc
  {
    StartNext(lo, inc, n - 1);
    assert Start(lo, inc, 0) == lo;
    if Start(lo, inc, n - 1) <= v {
      i := n - 1;
    } else {
      i := SliceOf(lo, inc, n - 1, v);
    }
  }

  lemma SideSlice(lo: real, hi: real, n: nat, v: real) returns (i: nat)
    requires n > 0 && lo < hi && lo <= v <= hi
    ensures i < Slices(lo, hi, n)
    ensures var inc := (hi - lo) / (n as real); Start(lo, inc, i) <= v <= Start(lo, inc, i) + inc
  {
    var inc := (hi - lo) / (n as real);
    assert inc * (n as real) == hi - lo;
    i := SliceOf(lo, inc, n, v);
  }

  /** Boxes with length, width and height. */
  predicate Solid(box: Box)
  {
    box.min.x < box.max.x && box.min.y < box.max.y && box.min.z < box.max.z
  }

  lemma InCell(fx: Side, fy: Side, fz: Side, inc: Point, nx: nat, ny: nat, nz: nat, i: nat, j: nat, k: nat)
    returns (c: Box)
    requires i < nx && j < ny && k < nz
    ensures c == CellAt(fx(i), fy(j), fz(k), inc) && c in Gathered(Sheets(fx, fy, fz, inc, ny, nz), nx)
  {
    c := CellAt(fx(i), fy(j), fz(k), inc);
    InGathered(Cells(fz, inc, fx(i), fy(j)), nz, k, c);
    InGathered(Columns(fy, fz, inc, fx(i), nz), ny, j, c);
    InGathered(Sheets(fx, fy, fz, inc, ny, nz), nx, i, c);
  }

  lemma CellOf(box: Box, nx: nat, ny: nat, nz: nat, p: Point) returns (c: Box)
    requires nx > 0 && ny > 0 && nz > 0 && Solid(box) && Within(p, box)
    ensures c in Partitions(box, nx, ny, nz) && Within(p, c)
  {
    var i := SideSlice(box.min.x, box.max.x, nx, p.x);
    var j := SideSlice(box.min.y, box.max.y, ny, p.y);
    var k := SideSlice(box.min.z, box.max.z, nz, p.z);
    var inc := Increments(box, nx, ny, nz);
    var fx, fy, fz := Starts(box.min.x, inc.x), Starts(box.min.y, inc.y), Starts(box.min.z, inc.z);
    c := InCell(fx, fy, fz, inc, nx, ny, nz, i, j, k);
  }

  lemma {:induction false} GatheredNone(f: nat -> seq<Box>, n: nat)
    requires forall i: nat :: i < n ==> f(i) == []
    ensures Gathered(f, n) == []
  {
    if n > 0 { GatheredNone(f, n - 1); }
  }

  /** A box without length, width or height gets no grid. */
  lemma FlatIsEmpty(box: Box, nx: nat, ny: nat, nz: nat)
    requires nx > 0 && ny > 0 && nz > 0 && !Solid(box)
    ensures Partitions(box, nx, ny, nz) == []
  {
    var inc := Increments(box, nx, ny, nz);
    var fx, fy, fz := Starts(box.min.x, inc.x), Starts(box.min.y, inc.y), Starts(box.min.z, inc.z);
    var my, mz := Slices(box.min.y, box.max.y, ny), Slices(box.min.z, box.max.z, nz);
    if my == 0 || mz == 0 {
      forall i: nat
        ensures Sheets(fx, fy, fz, inc, my, mz)(i) == []
      {
        forall j: nat | j < my
          ensures Columns(fy, fz, inc, fx(i), mz)(j) == []
        {
          assert Gathered(Cells(fz, inc, fx(i), fy(j)), 0) == [];
        }
        GatheredNone(Columns(fy, fz, inc, fx(i), mz), my);
      }
      GatheredNone(Sheets(fx, fy, fz, inc, my, mz), Slices(box.min.x, box.max.x, nx));
    }
  }

  ghost predicate Covered(p: Point, cells: seq<Box>)
  {
    exists c :: c in cells && Within(p, c)
  }

  /** The grid covers a box exactly when the box is solid: a flat one gets no grid at all. */
  lemma CoversExact(box: Box, nx: nat, ny: nat, nz: nat)
    requires nx > 0 && ny > 0 && nz > 0 && Proper(box)
    ensures (forall p :: Within(p, box) ==> Covered(p, Partitions(box, nx, ny, nz))) <==> Solid(box)
  {
    if Solid(box) {
      forall p | Within(p, box)
        ensures Covered(p, Partitions(box, nx, ny, nz))
      {
        var c := CellOf(box, nx, ny, nz, p);
      }
    } else {
      FlatIsEmpty(box, nx, ny, nz);
      assert Within(box.min, box) && !Covered(box.min, []);
    }
  }

  // ---------------------------------------------------------------------------------------------
  // Triangles
  // ---------------------------------------------------------------------------------------------

  datatype Corners = Corners(a: Point, b: Point, c: Point)

  /** A triangle and the box it remembers once it was asked for it. */
  datatype Triangle = Triangle(corners: Corners, bbox: Box, hasBBoxCalc: bool)
  {
    /** The remembered box is the right one. */
    predicate Valid()
    {
      hasBBoxCalc ==> bbox == Bound(corners)
    }

    /** A scaled copy, which remembers nothing. */
    function Scaled(o: Point): Triangle
    {
      Triangle(Corners(corners.a.Times(o), corners.b.Times(o), corners.c.Times(o)), Nowhere(), false)
    }

    /** Moved in place: what was remembered stays. */
    function Added(p: Point): Triangle
    {
      this.(corners := Corners(corners.a.Plus(p), corners.b.Plus(p), corners.c.Plus(p)))
    }

    function GetBBox(): (Triangle, Box)
    {
      if hasBBoxCalc then (this, bbox) else (this.(bbox := Bound(corners), hasBBoxCalc := true), Bound(corners))
    }
  }

  function Nowhere(): Box
  {
    Box(Point(0.0, 0.0, 0.0), Point(0.0, 0.0, 0.0))
  }

  function Bound(t: Corners): Box
  {
    Box(Point(Min(Min(t.a.x, t.b.x), t.c.x), Min(Min(t.a.y, t.b.y), t.c.y), Min(Min(t.a.z, t.b.z), t.c.z)),
        Point(Max(Max(t.a.x, t.b.x), t.c.x), Max(Max(t.a.y, t.b.y), t.c.y), Max(Max(t.a.z, t.b.z), t.c.z)))
  }

  /** The box of a triangle is the smallest one that contains its corners. */
  lemma BoundIsLeast(t: Corners, b: Box)
    ensures Proper(Bound(t)) && Within(t.a, Bound(t)) && Within(t.b, Bound(t)) && Within(t.c, Bound(t))
    ensures Within(t.a, b) && Within(t.b, b) && Within(t.c, b) <==> Within(Bound(t).min, b) && Within(Bound(t).max, b)
  {
  }

  /** Moving a triangle after asking for its box leaves the old box behind, unless it stays where it is. */
  lemma MovedTooLate(t: Triangle, p: Point)
    requires t.Valid()
    ensures t.GetBBox().0.Added(p).Valid() <==> p == Point(0.0, 0.0, 0.0)
  {
    var old' := Bound(t.corners);
    var now := Bound(t.Added(p).corners);
    assert now.min == old'.min.Plus(p);
  }

  /** A face of the mesh where the object is. */
  function Placed(face: Triangle, s: Point, t: Point): (r: Triangle)
    ensures r.Valid() && r.hasBBoxCalc
  {
    face.Scaled(s).Added(t).GetBBox().0
  }

  function AllPlaced(faces: seq<Triangle>, s: Point, t: Point): (r: seq<Triangle>)
    ensures |r| == |faces|
    ensures forall tr :: tr in r ==> tr.Valid() && tr.hasBBoxCalc
  {
    if faces == [] then [] else AllPlaced(faces[..|faces| - 1], s, t) + [Placed(faces[|faces| - 1], s, t)]
  }

  // ---------------------------------------------------------------------------------------------
  // Triangles by box
  // ---------------------------------------------------------------------------------------------

  type Index = map<Box, seq<Triangle>>

  /** What the map holds for a box; nothing where it has no entry. */
  function Lookup(m: Index, p: Box): seq<Triangle>
  {
    if p in m then m[p] else []
  }

  /** The entry of box p holds exactly those of the triangles that intersect it. */
  ghost predicate EntryRight(m: Index, tris: seq<Triangle>, p: Box)
  {
    forall tr :: tr in Lookup(m, p) <==> tr in tris && Intersects(p, Bound(tr.corners))
  }

  ghost predicate Indexes(m: Index, partitions: seq<Box>, tris: seq<Triangle>)
  {
    forall p :: p in partitions ==> EntryRight(m, tris, p)
  }

  /** The inner loop is at q: the boxes before it have seen the new triangle. */
  ghost predicate Partly(m: Index, partitions: seq<Box>, q: nat, tris: seq<Triangle>, tr: Triangle)
    requires q <= |partitions|
  {
    forall p :: p in partitions ==> EntryRight(m, if p in partitions[..q] then tris + [tr] else tris, p)
  }

  function Pushed(m: Index, p: Box, tr: Triangle): Index
  {
    m[p := Lookup(m, p) + (if Intersects(p, Bound(tr.corners)) then [tr] else [])]
  }

  lemma EntryPushed(m: Index, p: Box, tris: seq<Triangle>, tr: Triangle)
    requires EntryRight(m, tris, p) || EntryRight(m, tris + [tr], p)
    ensures EntryRight(Pushed(m, p, tr), tris + [tr], p)
  {
  }

  lemma PartlyNext(m: Index, partitions: seq<Box>, q: nat, tris: seq<Triangle>, tr: Triangle)
    requires q < |partitions| && Partly(m, partitions, q, tris, tr)
    ensures Partly(Pushed(m, partitions[q], tr), partitions, q + 1, tris, tr)
  {
    var p0 := partitions[q];
    var m' := Pushed(m, p0, tr);
    assert partitions[..q + 1] == partitions[..q] + [p0];
    forall p | p in partitions
      ensures EntryRight(m', if p in partitions[..q + 1] then tris + [tr] else tris, p)
    {
      if p == p0 {
        EntryPushed(m, p, tris, tr);
      } else {
        assert Lookup(m', p) == Lookup(m, p);
      }
    }
  }

  class GameObject {
    const partitions: seq<Box>
    const faces: seq<Triangle>
    var s: Point
    var t: Point
    var partitionToTriangles: Index
    /** The scale and the place of the object when the map was made. */
    ghost var madeS: Point
    ghost var madeT: Point

    /** The triangles the map is for. */
    ghost function Mapped(): seq<Triangle>
      reads this
    {
      AllPlaced(faces, madeS, madeT)
    }

    /** The map, if there is one, is for the object where it was when the map was made. */
    ghost predicate Valid()
      reads this
    {
      partitionToTriangles == map[] || Indexes(partitionToTriangles, partitions, Mapped())
    }

    constructor (partitions: seq<Box>, faces: seq<Triangle>)
      ensures this.partitions == partitions && this.faces == faces && Valid() && partitionToTriangles == map[]
    {
      this.partitions, this.faces := partitions, faces;
      s, t := Point(1.0, 1.0, 1.0), Point(0.0, 0.0, 0.0);
      partitionToTriangles := map[];
    }

    /** One face into the boxes it intersects. */
    method EnterFace(face: Triangle, ghost tris: seq<Triangle>)
      requires Indexes(partitionToTriangles, partitions, tris)
      modifies this`partitionToTriangles
      ensures Indexes(partitionToTriangles, partitions, tris + [Placed(face, s, t)])
    {
      var faceT := face.Scaled(s);
      faceT := faceT.Added(t);
      ghost var tr := Placed(face, s, t);
      for q := 0 to |partitions|
        invariant faceT.GetBBox() == (tr, Bound(tr.corners))
        invariant Partly(partitionToTriangles, partitions, q, tris, tr)
      {
        PartlyNext(partitionToTriangles, partitions, q, tris, tr);
        faceT := EnterBox(partitions[q], faceT, tr);
      }
      assert partitions[..|partitions|] == partitions;
    }

    /** One face into one box; being asked for its box, it remembers it. */
    method EnterBox(partition: Box, faceT: Triangle, ghost tr: Triangle) returns (asked: Triangle)
      requires faceT.GetBBox() == (tr, Bound(tr.corners))
      modifies this`partitionToTriangles
      ensures asked == tr && asked.GetBBox() == faceT.GetBBox()
      ensures partitionToTriangles == Pushed(old(partitionToTriangles), partition, tr)
    {
      var currTriangles := if partition in partitionToTriangles then partitionToTriangles[partition] else [];
      assert currTriangles + [] == currTriangles;
      var answer := faceT.GetBBox();
      asked := answer.0;
      if Intersects(partition, answer.1) {
        currTriangles := currTriangles + [asked];
      }
      partitionToTriangles := partitionToTriangles[partition := currTriangles];
    }

    /** A map that is there is used as it is, wherever the object went since; otherwise it is made anew. */
    method GetPartitionToTriangles(useCache: bool) returns (m: Index)
      requires Valid()
      modifies this`partitionToTriangles, this`madeS, this`madeT
      ensures Valid() && m == partitionToTriangles && Indexes(m, partitions, Mapped())
      ensures var cached := useCache && old(partitionToTriangles) != map[];
              && (cached ==> m == old(partitionToTriangles) && madeS == old(madeS) && madeT == old(madeT))
              && (!cached ==> madeS == s && madeT == t)
    {
      if !useCache || partitionToTriangles == map[] {
        madeS, madeT := s, t;
        partitionToTriangles := map[];
        for i := 0 to |faces|
          invariant madeS == s && madeT == t
          invariant Indexes(partitionToTriangles, partitions, AllPlaced(faces[..i], s, t))
        {
          EnterFace(faces[i], AllPlaced(faces[..i], s, t));
          assert faces[..i + 1][..i] == faces[..i];
        }
        assert faces[..|faces|] == faces;
      }
      m := partitionToTriangles;
    }
  }

  // ---------------------------------------------------------------------------------------------
  // The search
  // ---------------------------------------------------------------------------------------------

  /** The exact test of two triangles. */
  type Overlap = (Corners, Corners) -> bool

  predicate Hits(overlap: Overlap, t1: Triangle, t2: Triangle)
  {
    Intersects(Bound(t1.corners), Bound(t2.corners)) && overlap(t1.corners, t2.corners)
  }

  /** The pair is found in box p. */
  predicate FoundIn(overlap: Overlap, m1: Index, m2: Index, p: Box, t1: Triangle, t2: Triangle)
  {
    t1 in Lookup(m1, p) && t2 in Lookup(m2, p) && Hits(overlap, t1, t2)
  }

  ghost predicate NoneIn(overlap: Overlap, ts1: seq<Triangle>, ts2: seq<Triangle>)
  {
    forall t1, t2 :: t1 in ts1 && t2 in ts2 ==> !Hits(overlap, t1, t2)
  }

  predicate AllValid(ts: seq<Triangle>)
  {
    forall i :: 0 <= i < |ts| ==> ts[i].Valid()
  }

  method SearchAgainst(overlap: Overlap, triangle1: Triangle, triangles2: seq<Triangle>) returns (r: Option<Triangle>)
    requires triangle1.Valid() && AllValid(triangles2)
    ensures r.Some? ==> r.value in triangles2 && Hits(overlap, triangle1, r.value)
    ensures r.None? ==> NoneIn(overlap, [triangle1], triangles2)
  {
    for j := 0 to |triangles2|
      invariant NoneIn(overlap, [triangle1], triangles2[..j])
    {
      var triangle2 := triangles2[j];
      if Intersects(triangle1.GetBBox().1, triangle2.GetBBox().1) && overlap(triangle1.corners, triangle2.corners) {
        return Some(triangle2);
      }
    }
    assert triangles2[..|triangles2|] == triangles2;
    r := None;
  }

  method SearchBox(overlap: Overlap, triangles1: seq<Triangle>, triangles2: seq<Triangle>)
    returns (r: Option<(Triangle, Triangle)>)
    requires AllValid(triangles1) && AllValid(triangles2)
    ensures r.Some? ==> r.value.0 in triangles1 && r.value.1 in triangles2 && Hits(overlap, r.value.0, r.value.1)
    ensures r.None? ==> NoneIn(overlap, triangles1, triangles2)
  {
    for i := 0 to |triangles1|
      invariant NoneIn(overlap, triangles1[..i], triangles2)
    {
      var hit := SearchAgainst(overlap, triangles1[i], triangles2);
      if hit.Some? {
        return Some((triangles1[i], hit.value));
      }
      assert forall t2 :: t2 in triangles2 ==> triangles1[i] in [triangles1[i]] && !Hits(overlap, triangles1[i], t2);
    }
    assert triangles1[..|triangles1|] == triangles1;
    r := None;
  }

  ghost predicate EntriesValid(m: Index, partitions: seq<Box>)
  {
    forall p :: p in partitions ==> AllValid(Lookup(m, p))
  }

  /** getCollision: a pair is found exactly when some box has one. */
  method GetCollision(overlap: Overlap, partitions: seq<Box>, m1: Index, m2: Index)
    returns (r: Option<(Triangle, Triangle)>)
    requires EntriesValid(m1, partitions) && EntriesValid(m2, partitions)
    ensures r.Some? ==> exists p :: p in partitions && FoundIn(overlap, m1, m2, p, r.value.0, r.value.1)
    ensures r.None? ==> forall p :: p in partitions ==> NoneIn(overlap, Lookup(m1, p), Lookup(m2, p))
  {
    for q := 0 to |partitions|
      invariant forall p :: p in partitions[..q] ==> NoneIn(overlap, Lookup(m1, p), Lookup(m2, p))
    {
      var partition := partitions[q];
      assert AllValid(Lookup(m1, partition)) && AllValid(Lookup(m2, partition));
      if partition in m1 && partition in m2 && m1[partition] != [] && m2[partition] != [] {
        r := SearchBox(overlap, m1[partition], m2[partition]);
        if r.Some? {
          assert FoundIn(overlap, m1, m2, partition, r.value.0, r.value.1);
          return;
        }
      }
      assert NoneIn(overlap, Lookup(m1, partition), Lookup(m2, partition));
    }
    assert partitions[..|partitions|] == partitions;
    r := None;
  }

  // ---------------------------------------------------------------------------------------------
  // Against brute force
  // ---------------------------------------------------------------------------------------------

  /** Some pair of triangles meets: what comparing all pairs would find. */
  ghost predicate SomeHit(overlap: Overlap, ts1: seq<Triangle>, ts2: seq<Triangle>)
  {
    exists t1, t2 :: t1 in ts1 && t2 in ts2 && Hits(overlap, t1, t2)
  }

  /** The box around the triangle meets the scene. */
  predicate Reaches(scene: Box, tr: Triangle)
  {
    Intersects(scene, Bound(tr.corners))
  }

  /** Some pair meets and both boxes reach into the scene. */
  ghost predicate SomeHitNear(overlap: Overlap, scene: Box, ts1: seq<Triangle>, ts2: seq<Triangle>)
  {
    exists t1, t2 ::
      t1 in ts1 && t2 in ts2 && Hits(overlap, t1, t2) && Reaches(scene, t1) && Reaches(scene, t2)
  }

  /** The triangle lies in the scene. */
  predicate Inside(tr: Triangle, scene: Box)
  {
    Within(tr.corners.a, scene) && Within(tr.corners.b, scene) && Within(tr.corners.c, scene)
  }

  /** If the triangles of one object lie in the scene, every pair that meets is near. */
  lemma InsideIsNear(overlap: Overlap, scene: Box, ts1: seq<Triangle>, ts2: seq<Triangle>)
    requires SomeHit(overlap, ts1, ts2) && forall tr :: tr in ts1 ==> Inside(tr, scene)
    ensures SomeHitNear(overlap, scene, ts1, ts2)
  {
    var t1, t2 :| t1 in ts1 && t2 in ts2 && Hits(overlap, t1, t2);
    BoundIsLeast(t1.corners, scene);
    BoundIsLeast(t2.corners, scene);
    assert Reaches(scene, t1) && Reaches(scene, t2);
  }

  /** Where a box of the grid comes from. */
  lemma FromGrid(fx: Side, fy: Side, fz: Side, inc: Point, nx: nat, ny: nat, nz: nat, c: Box)
    returns (i: nat, j: nat, k: nat)
    requires c in Gathered(Sheets(fx, fy, fz, inc, ny, nz), nx)
    ensures i < nx && j < ny && k < nz && c == CellAt(fx(i), fy(j), fz(k), inc)
  {
    i := FromGathered(Sheets(fx, fy, fz, inc, ny, nz), nx, c);
    j := FromGathered(Columns(fy, fz, inc, fx(i), nz), ny, c);
    k := FromGathered(Cells(fz, inc, fx(i), fy(j)), nz, c);
  }

  /** A slice lies between the ends of its side. */
  lemma SliceInside(lo: real, hi: real, n: nat, i: nat)
    requires lo < hi && i < n
    ensures var inc := (hi - lo) / (n as real); lo <= Start(lo, inc, i) < Start(lo, inc, i) + inc <= hi
  {
    var inc := (hi - lo) / (n as real);
    assert inc * (n as real) == hi - lo;
    StartNext(lo, inc, i);
    if i > 0 { Positive(inc, i as real); }
    if i + 1 < n { StartBelow(lo, hi, n, inc, i + 1); }
  }

  /** Every box of the grid lies in the scene. */
  lemma CellsInside(scene: Box, nx: nat, ny: nat, nz: nat, c: Box)
    requires nx > 0 && ny > 0 && nz > 0 && Solid(scene) && c in Partitions(scene, nx, ny, nz)
    ensures Solid(c) && Within(c.min, scene) && Within(c.max, scene)
  {
    var inc := Increments(scene, nx, ny, nz);
    var fx, fy, fz := Starts(scene.min.x, inc.x), Starts(scene.min.y, inc.y), Starts(scene.min.z, inc.z);
    var i, j, k := FromGrid(fx, fy, fz, inc, nx, ny, nz, c);
    SliceInside(scene.min.x, scene.max.x, nx, i);
    SliceInside(scene.min.y, scene.max.y, ny, j);
    SliceInside(scene.min.z, scene.max.z, nz, k);
  }

  /** Three boxes that meet in pairs share a point. */
  lemma PairwiseMeet(a: Box, b: Box, c: Box) returns (p: Point)
    requires Proper(a) && Proper(b) && Proper(c)
    requires Intersects(a, b) && Intersects(a, c) && Intersects(b, c)
    ensures Within(p, a) && Within(p, b) && Within(p, c)
  {
    p := Point(Max(a.min.x, Max(b.min.x, c.min.x)),
               Max(a.min.y, Max(b.min.y, c.min.y)),
               Max(a.min.z, Max(b.min.z, c.min.z)));
  }

  /** Both boxes meet box c of the grid. */
  predicate Meet(c: Box, b1: Box, b2: Box)
  {
    Intersects(c, b1) && Intersects(c, b2)
  }

  /** Two boxes that intersect meet a common box of the grid exactly when both meet the scene; where the scene is
      flat there is no grid. */
  lemma CommonCell(scene: Box, nx: nat, ny: nat, nz: nat, b1: Box, b2: Box)
    requires nx > 0 && ny > 0 && nz > 0 && Proper(b1) && Proper(b2) && Intersects(b1, b2)
    ensures (exists c :: c in Partitions(scene, nx, ny, nz) && Meet(c, b1, b2)) <==>
            Solid(scene) && Intersects(scene, b1) && Intersects(scene, b2)
  {
    if !Solid(scene) {
      FlatIsEmpty(scene, nx, ny, nz);
    } else {
      if Intersects(scene, b1) && Intersects(scene, b2) {
        var p := PairwiseMeet(scene, b1, b2);
        var c := CellOf(scene, nx, ny, nz, p);
        assert Meet(c, b1, b2);
      }
      if c :| c in Partitions(scene, nx, ny, nz) && Meet(c, b1, b2) {
        CellsInside(scene, nx, ny, nz, c);
      }
    }
  }

  /** The box of the grid in which a pair near the scene is found. */
  lemma NearIsFound(overlap: Overlap, cells: seq<Box>, t1: Triangle, t2: Triangle,
                    ts1: seq<Triangle>, ts2: seq<Triangle>, m1: Index, m2: Index)
    requires Indexes(m1, cells, ts1) && Indexes(m2, cells, ts2)
    requires t1 in ts1 && t2 in ts2 && Hits(overlap, t1, t2)
    requires exists c :: c in cells && Meet(c, Bound(t1.corners), Bound(t2.corners))
    ensures exists p :: p in cells && FoundIn(overlap, m1, m2, p, t1, t2)
  {
    var c :| c in cells && Meet(c, Bound(t1.corners), Bound(t2.corners));
    assert EntryRight(m1, ts1, c) && EntryRight(m2, ts2, c);
    assert FoundIn(overlap, m1, m2, c, t1, t2);
  }

  /** A pair found in a box of the grid meets, and both of its boxes meet that box. */
  lemma FoundIsHit(overlap: Overlap, cells: seq<Box>, p: Box, t1: Triangle, t2: Triangle,
                   ts1: seq<Triangle>, ts2: seq<Triangle>, m1: Index, m2: Index)
    requires Indexes(m1, cells, ts1) && Indexes(m2, cells, ts2)
    requires p in cells && FoundIn(overlap, m1, m2, p, t1, t2)
    ensures t1 in ts1 && t2 in ts2 && Hits(overlap, t1, t2) && Meet(p, Bound(t1.corners), Bound(t2.corners))
  {
    assert EntryRight(m1, ts1, p) && EntryRight(m2, ts2, p);
  }

  /** The grid finds a pair exactly when some pair meets whose boxes both reach into the scene. */
  lemma GridFindsExactly(overlap: Overlap, scene: Box, nx: nat, ny: nat, nz: nat,
                         ts1: seq<Triangle>, ts2: seq<Triangle>, m1: Index, m2: Index)
    requires nx > 0 && ny > 0 && nz > 0
    requires Indexes(m1, Partitions(scene, nx, ny, nz), ts1) && Indexes(m2, Partitions(scene, nx, ny, nz), ts2)
    ensures Solid(scene) && SomeHitNear(overlap, scene, ts1, ts2) <==>
            exists p, t1, t2 :: p in Partitions(scene, nx, ny, nz) && FoundIn(overlap, m1, m2, p, t1, t2)
  {
    var cells := Partitions(scene, nx, ny, nz);
    if Solid(scene) && SomeHitNear(overlap, scene, ts1, ts2) {
      var t1, t2 :|
        t1 in ts1 && t2 in ts2 && Hits(overlap, t1, t2) && Reaches(scene, t1) && Reaches(scene, t2);
      CommonCell(scene, nx, ny, nz, Bound(t1.corners), Bound(t2.corners));
      NearIsFound(overlap, cells, t1, t2, ts1, ts2, m1, m2);
    }
    if p, t1, t2 :| p in cells && FoundIn(overlap, m1, m2, p, t1, t2) {
      FoundIsHit(overlap, cells, p, t1, t2, ts1, ts2, m1, m2);
      CommonCell(scene, nx, ny, nz, Bound(t1.corners), Bound(t2.corners));
      assert Reaches(scene, t1) && Reaches(scene, t2);
    }
  }

  /** A point of a triangle: its corners, mixed. */
  predicate OnTriangle(p: Point, t: Corners, u: real, v: real, w: real)
  {
    && u >= 0.0 && v >= 0.0 && w >= 0.0 && u + v + w == 1.0
    && p.x == u * t.a.x + v * t.b.x + w * t.c.x
    && p.y == u * t.a.y + v * t.b.y + w * t.c.y
    && p.z == u * t.a.z + v * t.b.z + w * t.c.z
  }

  /** Two triangles one step beyond the scene, upright to each other; a corner of the first lies on the second. */
  function Beyond(scene: Box): (r: (Corners, Corners))
    ensures var p := r.0.a; OnTriangle(p, r.0, 1.0, 0.0, 0.0) && OnTriangle(p, r.1, 0.5, 0.5, 0.0)
  {
    var p := Point(scene.max.x + 1.0, scene.min.y, scene.min.z);
    (Corners(p, Point(p.x + 1.0, p.y, p.z), Point(p.x, p.y + 1.0, p.z)),
     Corners(Point(p.x, p.y, p.z - 1.0), Point(p.x, p.y, p.z + 1.0), Point(p.x + 1.0, p.y + 1.0, p.z)))
  }

  /** Outside the scene pairs are lost: these two meet, and no box of the grid has them both. */
  lemma LostOutside(overlap: Overlap, scene: Box, nx: nat, ny: nat, nz: nat,
                    t1: Triangle, t2: Triangle, m1: Index, m2: Index)
    requires nx > 0 && ny > 0 && nz > 0 && Solid(scene)
    requires (t1.corners, t2.corners) == Beyond(scene) && overlap(t1.corners, t2.corners)
    requires Indexes(m1, Partitions(scene, nx, ny, nz), [t1]) && Indexes(m2, Partitions(scene, nx, ny, nz), [t2])
    ensures SomeHit(overlap, [t1], [t2])
    ensures !exists p, u1, u2 :: p in Partitions(scene, nx, ny, nz) && FoundIn(overlap, m1, m2, p, u1, u2)
  {
    assert t1 in [t1] && t2 in [t2] && Hits(overlap, t1, t2);
    assert !Reaches(scene, t1);
    GridFindsExactly(overlap, scene, nx, ny, nz, [t1], [t2], m1, m2);
  }

  lemma IndexValid(m: Index, partitions: seq<Box>, ts: seq<Triangle>)
    requires Indexes(m, partitions, ts) && forall tr :: tr in ts ==> tr.Valid()
    ensures EntriesValid(m, partitions)
  {
    forall p | p in partitions
      ensures AllValid(Lookup(m, p))
    {
      assert EntryRight(m, ts, p);
      forall i | 0 <= i < |Lookup(m, p)|
        ensures Lookup(m, p)[i].Valid()
      {
        assert Lookup(m, p)[i] in Lookup(m, p);
      }
    }
  }

  /** What the player does: its own triangles anew, those of the scenery where they were when they were remembered.
      A pair is found exactly when some pair meets whose boxes both reach into the scene; with the player in the scene,
      exactly when comparing all pairs would find one. */
  method Collide(overlap: Overlap, scene: Box, nx: nat, ny: nat, nz: nat, player: GameObject, scenery: GameObject)
    returns (r: Option<(Triangle, Triangle)>)
    requires nx > 0 && ny > 0 && nz > 0 && player != scenery && player.Valid() && scenery.Valid()
    requires player.partitions == Partitions(scene, nx, ny, nz) == scenery.partitions
    modifies player`partitionToTriangles, player`madeS, player`madeT
    modifies scenery`partitionToTriangles, scenery`madeS, scenery`madeT
    ensures var remembered := old(scenery.partitionToTriangles) != map[];
            && player.madeS == player.s && player.madeT == player.t
            && scenery.madeS == (if remembered then old(scenery.madeS) else scenery.s)
            && scenery.madeT == (if remembered then old(scenery.madeT) else scenery.t)
    ensures r.Some? <==> Solid(scene) && SomeHitNear(overlap, scene, player.Mapped(), scenery.Mapped())
    ensures Solid(scene) && (forall tr :: tr in player.Mapped() ==> Inside(tr, scene)) ==>
              (r.Some? <==> SomeHit(overlap, player.Mapped(), scenery.Mapped()))
    ensures r.Some? ==> Hits(overlap, r.value.0, r.value.1)
  {
    var m1 := player.GetPartitionToTriangles(false);
    var m2 := scenery.GetPartitionToTriangles(true);
    ghost var ts1, ts2 := player.Mapped(), scenery.Mapped();
    IndexValid(m1, player.partitions, ts1);
    IndexValid(m2, player.partitions, ts2);
    r := GetCollision(overlap, player.partitions, m1, m2);
    NoneFound(overlap, player.partitions, m1, m2, r);
    GridFindsExactly(overlap, scene, nx, ny, nz, ts1, ts2, m1, m2);
    NearIsEnough(overlap, scene, ts1, ts2);
  }

  lemma NearIsEnough(overlap: Overlap, scene: Box, ts1: seq<Triangle>, ts2: seq<Triangle>)
    ensures (forall tr :: tr in ts1 ==> Inside(tr, scene)) ==>
              (SomeHitNear(overlap, scene, ts1, ts2) <==> SomeHit(overlap, ts1, ts2))
  {
    if (forall tr :: tr in ts1 ==> Inside(tr, scene)) && SomeHit(overlap, ts1, ts2) {
      InsideIsNear(overlap, scene, ts1, ts2);
    }
  }

  lemma NoneFound(overlap: Overlap, partitions: seq<Box>, m1: Index, m2: Index, r: Option<(Triangle, Triangle)>)
    requires r.None? ==> forall p :: p in partitions ==> NoneIn(overlap, Lookup(m1, p), Lookup(m2, p))
    requires r.Some? ==> exists p :: p in partitions && FoundIn(overlap, m1, m2, p, r.value.0, r.value.1)
    ensures r.Some? <==> exists p, t1, t2 :: p in partitions && FoundIn(overlap, m1, m2, p, t1, t2)
  {
  }
}
