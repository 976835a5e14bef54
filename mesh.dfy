/**
 * The pure side of a part's mesh (Document/Models/EditableVoxelList.cs): palette colours,
 * the faces `UpdateVoxel` emits for one voxel, and the running bounding box it widens.
 *
 * Face centres sit half a unit off the voxel centre (`x + 0.5f`); here every position is
 * stored doubled, so a centre is an integer triple.
 */
module Mesh {
  import opened Wrappers
  import opened VoxelStorage

  /** A `System.Drawing.Color` by its ARGB channels. */
  datatype Color = Color(a: int, r: int, g: int, b: int)

  /** `Color.Transparent`: ARGB (0, 255, 255, 255). */
  const Transparent: Color := Color(0, 255, 255, 255)

  /** The vertex colour `WithAlpha(1)` makes: the colour's RGB channels, fully opaque. */
  datatype FaceColor = FaceColor(r: int, g: int, b: int)

  function Opaque(c: Color): FaceColor
  {
    FaceColor(c.r, c.g, c.b)
  }

  /**
   * `GetColor` on the palette's colours: indices past the end read as transparent. A negative
   * index makes the array access throw, so it is excluded.
   */
  function PaletteColor(colors: seq<Color>, index: int): (c: Color)
    requires index >= 0
    ensures index < |colors| ==> c == colors[index]
    ensures index >= |colors| ==> c == Transparent
  {
    if index >= |colors| then Transparent else colors[index]
  }

  /** The vertex `UpdateVoxel` adds: doubled centre, direction code and colour. */
  datatype Face = Face(px: int, py: int, pz: int, dir: int, color: FaceColor)

  /** The unit step of direction `dir`: 0 +x, 1 -x, 2 +y, 3 -y, 4 +z, 5 -z. */
  function Step(dir: int): (s: Cell)
    requires 0 <= dir < 6
    ensures s.x * s.x + s.y * s.y + s.z * s.z == 1
  {
    if dir == 0 then Cell(1, 0, 0)
    else if dir == 1 then Cell(-1, 0, 0)
    else if dir == 2 then Cell(0, 1, 0)
    else if dir == 3 then Cell(0, -1, 0)
    else if dir == 4 then Cell(0, 0, 1)
    else Cell(0, 0, -1)
  }

  /** The cell across face `dir` of `c`. */
  function Neighbour(c: Cell, dir: int): Cell
    requires 0 <= dir < 6
  {
    var s := Step(dir);
    Cell(c.x + s.x, c.y + s.y, c.z + s.z)
  }

  /** The face `AddFace` builds for face `dir` of `c`, with its centre in doubled coordinates. */
  function FaceAt(c: Cell, dir: int, color: FaceColor): (f: Face)
    requires 0 <= dir < 6
    ensures f.dir == dir && f.color == color
  {
    var s := Step(dir);
    Face(2 * c.x + s.x, 2 * c.y + s.y, 2 * c.z + s.z, dir, color)
  }

  /**
   * A face sits midway between its voxel and the neighbour it faces: in doubled coordinates
   * its centre is the sum of the two cells.
   */
  lemma FaceAtMidway(c: Cell, dir: int, color: FaceColor)
    requires 0 <= dir < 6
    ensures var f := FaceAt(c, dir, color);
            f.px == c.x + Neighbour(c, dir).x && f.py == c.y + Neighbour(c, dir).y &&
            f.pz == c.z + Neighbour(c, dir).z
  {
  }

  /** Which of the six neighbours of `c` are occupied, in direction order. */
  ghost function Around(c: Cell, occupied: Cell -> bool): (p: seq<bool>)
    ensures |p| == 6
  {
    seq(6, d requires 0 <= d < 6 => occupied(Neighbour(c, d)))
  }

  /** Entry `d` of `Around` tells whether the neighbour in direction `d` is occupied. */
  lemma AroundAt(c: Cell, occupied: Cell -> bool, d: int)
    requires 0 <= d < 6
    ensures Around(c, occupied)[d] == occupied(Neighbour(c, d))
  {
  }

  /** Two occupancies that agree on the six neighbours of `c` give the same `Around`. */
  lemma AroundSame(c: Cell, occupied: Cell -> bool, occupied': Cell -> bool)
    requires forall d :: 0 <= d < 6 ==> occupied(Neighbour(c, d)) == occupied'(Neighbour(c, d))
    ensures Around(c, occupied) == Around(c, occupied')
  {
  }

  /** The faces `UpdateVoxel` emits from direction `d` on: one per unoccupied neighbour. */
  function FacesFrom(c: Cell, color: FaceColor, present: seq<bool>, d: int): seq<Face>
    requires |present| == 6 && 0 <= d <= 6
    decreases 6 - d
  {
    if d == 6 then []
    else (if present[d] then [] else [FaceAt(c, d, color)]) + FacesFrom(c, color, present, d + 1)
  }

  /** All faces `UpdateVoxel` emits for a voxel whose neighbours are `present`. */
  function FaceList(c: Cell, color: FaceColor, present: seq<bool>): seq<Face>
    requires |present| == 6
  {
    FacesFrom(c, color, present, 0)
  }

  /** How many of the entries of `present` from `d` on are true. */
  function CountFrom(present: seq<bool>, d: int): (n: int)
    requires 0 <= d <= |present|
    ensures 0 <= n <= |present| - d
    decreases |present| - d
  {
    if d == |present| then 0 else (if present[d] then 1 else 0) + CountFrom(present, d + 1)
  }

  /** The number of faces is the number of directions minus the occupied neighbours. */
  lemma {:induction false} FacesFromCount(c: Cell, color: FaceColor, present: seq<bool>, d: int)
    requires |present| == 6 && 0 <= d <= 6
    ensures |FacesFrom(c, color, present, d)| == (6 - d) - CountFrom(present, d)
    decreases 6 - d
  {
    if d < 6 {
      FacesFromCount(c, color, present, d + 1);
    }
  }

  /** A face is emitted for direction `e` exactly when that neighbour is unoccupied. */
  lemma {:induction false} FacesFromMembers(c: Cell, color: FaceColor, present: seq<bool>, d: int)
    requires |present| == 6 && 0 <= d <= 6
    ensures forall f :: f in FacesFrom(c, color, present, d) ==>
              d <= f.dir < 6 && !present[f.dir] && f == FaceAt(c, f.dir, color)
    ensures forall e :: d <= e < 6 && !present[e] ==> FaceAt(c, e, color) in FacesFrom(c, color, present, d)
    decreases 6 - d
  {
    if d < 6 {
      FacesFromMembers(c, color, present, d + 1);
      var head := if present[d] then [] else [FaceAt(c, d, color)];
      assert FacesFrom(c, color, present, d) == head + FacesFrom(c, color, present, d + 1);
      forall e | d <= e < 6 && !present[e]
        ensures FaceAt(c, e, color) in FacesFrom(c, color, present, d)
      {
        if e == d {
          InAppend(FaceAt(c, e, color), FacesFrom(c, color, present, d + 1), head);
        } else {
          InAppend(FaceAt(c, e, color), head, FacesFrom(c, color, present, d + 1));
        }
      }
    }
  }

  /**
   * The faces of one voxel: 6 minus its occupied neighbours, one per unoccupied direction,
   * each half a step from the voxel centre in that direction.
   */
  lemma FaceListSpec(c: Cell, color: FaceColor, present: seq<bool>)
    requires |present| == 6
    ensures |FaceList(c, color, present)| == 6 - CountFrom(present, 0)
    ensures forall f :: f in FaceList(c, color, present) ==>
              0 <= f.dir < 6 && !present[f.dir] && f == FaceAt(c, f.dir, color)
    ensures forall e :: 0 <= e < 6 && !present[e] ==> FaceAt(c, e, color) in FaceList(c, color, present)
  {
    FacesFromCount(c, color, present, 0);
    FacesFromMembers(c, color, present, 0);
  }

  /** The face one test of `UpdateVoxel` adds: none when the neighbour in direction `dir` is occupied. */
  function FaceIf(c: Cell, color: FaceColor, occupied: bool, dir: int): seq<Face>
    requires 0 <= dir < 6
  {
    if occupied then [] else [FaceAt(c, dir, color)]
  }

  // ---------------------------------------------------------------------------------------
  // The bounding box `MinX .. MaxZ`

  datatype Box = Box(minX: int, maxX: int, minY: int, maxY: int, minZ: int, maxZ: int)

  predicate Inside(c: Cell, b: Box)
  {
    b.minX <= c.x <= b.maxX && b.minY <= c.y <= b.maxY && b.minZ <= c.z <= b.maxZ
  }

  function Min(a: int, b: int): int { if a <= b then a else b }
  function Max(a: int, b: int): int { if a <= b then b else a }

  /**
   * The bounds after `UpdateVoxel` at `c`: the single cell when the bounds were not yet
   * initialised, otherwise the old bounds widened just enough to take `c` in.
   */
  function Widen(b: Option<Box>, c: Cell): (r: Box)
    ensures Inside(c, r)
    ensures b.None? ==> r == Box(c.x, c.x, c.y, c.y, c.z, c.z)
    ensures b.Some? ==> forall d :: Inside(d, b.value) ==> Inside(d, r)
  {
    match b
    case None => Box(c.x, c.x, c.y, c.y, c.z, c.z)
    case Some(o) =>
      Box(Min(o.minX, c.x), Max(o.maxX, c.x), Min(o.minY, c.y), Max(o.maxY, c.y),
          Min(o.minZ, c.z), Max(o.maxZ, c.z))
  }

  /** The bounds after `UpdateVoxel` on each of `items` in turn, starting from `b`. */
  function Bounds<V>(b: Option<Box>, items: seq<KeyValuePair<V>>): Option<Box>
    decreases |items|
  {
    if |items| == 0 then b
    else Some(Widen(Bounds(b, items[..|items| - 1]), CellOf(items[|items| - 1])))
  }

  /** Every bound of `box` is the coordinate of one of the cells of `items`. */
  predicate Attained<V>(box: Box, items: seq<KeyValuePair<V>>)
  {
    && (exists j :: 0 <= j < |items| && items[j].x == box.minX)
    && (exists j :: 0 <= j < |items| && items[j].x == box.maxX)
    && (exists j :: 0 <= j < |items| && items[j].y == box.minY)
    && (exists j :: 0 <= j < |items| && items[j].y == box.maxY)
    && (exists j :: 0 <= j < |items| && items[j].z == box.minZ)
    && (exists j :: 0 <= j < |items| && items[j].z == box.maxZ)
  }

  /**
   * Starting from uninitialised bounds, the bounds over a non-empty list of cells are exact:
   * every cell lies inside and every bound is reached by some cell.
   */
  lemma {:induction false} BoundsExact<V>(items: seq<KeyValuePair<V>>)
    requires |items| > 0
    ensures Bounds(None, items).Some?
    ensures forall j :: 0 <= j < |items| ==> Inside(CellOf(items[j]), Bounds(None, items).value)
    ensures Attained(Bounds(None, items).value, items)
    decreases |items|
  {
    var n := |items|;
    var init := items[..n - 1];
    var last := items[n - 1];
    var box := Bounds(None, items).value;
    if n == 1 {
      assert items[0] == last;
    } else {
      BoundsExact(init);
      var old_ := Bounds(None, init).value;
      assert box == Widen(Some(old_), CellOf(last));
      forall j | 0 <= j < n
        ensures Inside(CellOf(items[j]), box)
      {
        if j < n - 1 {
          assert items[j] == init[j];
        }
      }
      AttainedWiden(old_, init, last);
      assert items == init + [last];
    }
  }

  /** Widening exact bounds by one more cell keeps them exact. */
  lemma AttainedWiden<V>(box: Box, init: seq<KeyValuePair<V>>, last: KeyValuePair<V>)
    requires Attained(box, init)
    ensures Attained(Widen(Some(box), CellOf(last)), init + [last])
  {
    var items := init + [last];
    var r := Widen(Some(box), CellOf(last));
    var n := |init|;
    assert items[n] == last;
    var a :| 0 <= a < n && init[a].x == box.minX;
    assert items[a] == init[a];
    assert exists j :: 0 <= j < |items| && items[j].x == r.minX by {
      if r.minX == last.x { assert items[n].x == r.minX; } else { assert items[a].x == r.minX; }
    }
    var b :| 0 <= b < n && init[b].x == box.maxX;
    assert items[b] == init[b];
    assert exists j :: 0 <= j < |items| && items[j].x == r.maxX by {
      if r.maxX == last.x { assert items[n].x == r.maxX; } else { assert items[b].x == r.maxX; }
    }
    var c :| 0 <= c < n && init[c].y == box.minY;
    assert items[c] == init[c];
    assert exists j :: 0 <= j < |items| && items[j].y == r.minY by {
      if r.minY == last.y { assert items[n].y == r.minY; } else { assert items[c].y == r.minY; }
    }
    var d :| 0 <= d < n && init[d].y == box.maxY;
    assert items[d] == init[d];
    assert exists j :: 0 <= j < |items| && items[j].y == r.maxY by {
      if r.maxY == last.y { assert items[n].y == r.maxY; } else { assert items[d].y == r.maxY; }
    }
    var e :| 0 <= e < n && init[e].z == box.minZ;
    assert items[e] == init[e];
    assert exists j :: 0 <= j < |items| && items[j].z == r.minZ by {
      if r.minZ == last.z { assert items[n].z == r.minZ; } else { assert items[e].z == r.minZ; }
    }
    var f :| 0 <= f < n && init[f].z == box.maxZ;
    assert items[f] == init[f];
    assert exists j :: 0 <= j < |items| && items[j].z == r.maxZ by {
      if r.maxZ == last.z { assert items[n].z == r.maxZ; } else { assert items[f].z == r.maxZ; }
    }
  }

  // ---------------------------------------------------------------------------------------
  // The mesh of a whole part

  /**
   * The faces `UpdateVoxel` emits for each of `items` in turn, when `occupied` tells which
   * cells hold a voxel and `colors` is the palette.
   */
  ghost function AllFaces(occupied: Cell -> bool, colors: seq<Color>, items: seq<KeyValuePair<int>>): seq<Face>
    requires forall j :: 0 <= j < |items| ==> items[j].value >= 0
    decreases |items|
  {
    if |items| == 0 then []
    else
      var kv := items[|items| - 1];
      var c := CellOf(kv);
      AllFaces(occupied, colors, items[..|items| - 1])
        + FaceList(c, Opaque(PaletteColor(colors, kv.value)), Around(c, occupied))
  }

  /** The colour `UpdateVoxel` gives every face of the enumerated voxel `kv`. */
  function ItemColor(colors: seq<Color>, kv: KeyValuePair<int>): FaceColor
    requires kv.value >= 0
  {
    Opaque(PaletteColor(colors, kv.value))
  }

  /** Every face of the mesh is face `f.dir` of some voxel `items[j]`, whose neighbour there is unoccupied. */
  lemma {:induction false} AllFacesSource(occupied: Cell -> bool, colors: seq<Color>, items: seq<KeyValuePair<int>>, f: Face)
    returns (j: int)
    requires forall k :: 0 <= k < |items| ==> items[k].value >= 0
    requires f in AllFaces(occupied, colors, items)
    ensures 0 <= j < |items| && 0 <= f.dir < 6 && !occupied(Neighbour(CellOf(items[j]), f.dir))
    ensures f == FaceAt(CellOf(items[j]), f.dir, ItemColor(colors, items[j]))
    decreases |items|
  {
    var n := |items| - 1;
    var c, color := CellOf(items[n]), ItemColor(colors, items[n]);
    var rest := AllFaces(occupied, colors, items[..n]);
    assert AllFaces(occupied, colors, items) == rest + FaceList(c, color, Around(c, occupied));
    if f in rest {
      j := AllFacesSource(occupied, colors, items[..n], f);
      assert items[..n][j] == items[j];
    } else {
      FaceListSpec(c, color, Around(c, occupied));
      AroundAt(c, occupied, f.dir);
      j := n;
    }
  }

  /** Face `d` of the voxel `items[j]` is in the mesh when its neighbour there is unoccupied. */
  lemma {:induction false} AllFacesVisible(occupied: Cell -> bool, colors: seq<Color>, items: seq<KeyValuePair<int>>, j: int, d: int)
    requires forall k :: 0 <= k < |items| ==> items[k].value >= 0
    requires 0 <= j < |items| && 0 <= d < 6 && !occupied(Neighbour(CellOf(items[j]), d))
    ensures FaceAt(CellOf(items[j]), d, ItemColor(colors, items[j])) in AllFaces(occupied, colors, items)
    decreases |items|
  {
    var n := |items| - 1;
    var kv := items[j];
    var face := FaceAt(CellOf(kv), d, ItemColor(colors, kv));
    var rest, last := AllFacesLast(occupied, colors, items);
    if j < n {
      var init := items[..n];
      assert init[j] == kv;
      AllFacesVisible(occupied, colors, init, j, d);
      InAppend(face, last, rest);
    } else {
      assert j == n && kv == items[n];
      FaceVisible(occupied, ItemColor(colors, kv), CellOf(kv), d);
      assert face in last;
      InAppend(face, rest, last);
    }
  }

  /** Face `d` of `c` is among its faces when its neighbour there is unoccupied. */
  lemma FaceVisible(occupied: Cell -> bool, color: FaceColor, c: Cell, d: int)
    requires 0 <= d < 6 && !occupied(Neighbour(c, d))
    ensures FaceAt(c, d, color) in FaceList(c, color, Around(c, occupied))
  {
    AroundAt(c, occupied, d);
    FacesFromMembers(c, color, Around(c, occupied), 0);
  }

  /** The mesh of `items` is the mesh of all but the last voxel, then the last voxel's faces. */
  lemma AllFacesLast(occupied: Cell -> bool, colors: seq<Color>, items: seq<KeyValuePair<int>>)
    returns (rest: seq<Face>, last: seq<Face>)
    requires forall k :: 0 <= k < |items| ==> items[k].value >= 0
    requires |items| > 0
    ensures rest == AllFaces(occupied, colors, items[..|items| - 1])
    ensures last == FaceList(CellOf(items[|items| - 1]), ItemColor(colors, items[|items| - 1]), Around(CellOf(items[|items| - 1]), occupied))
    ensures AllFaces(occupied, colors, items) == rest + last
  {
    var n := |items| - 1;
    rest := AllFaces(occupied, colors, items[..n]);
    last := FaceList(CellOf(items[n]), ItemColor(colors, items[n]), Around(CellOf(items[n]), occupied));
  }

  /**
   * The mesh holds exactly the visible faces: face `d` of the voxel `items[j]`, in that voxel's
   * palette colour, for every direction `d` whose neighbour is unoccupied, and nothing else.
   */
  lemma AllFacesMembers(occupied: Cell -> bool, colors: seq<Color>, items: seq<KeyValuePair<int>>)
    requires forall j :: 0 <= j < |items| ==> items[j].value >= 0
    ensures forall f :: f in AllFaces(occupied, colors, items) ==>
              exists j :: 0 <= j < |items| && 0 <= f.dir < 6 && !occupied(Neighbour(CellOf(items[j]), f.dir))
                       && f == FaceAt(CellOf(items[j]), f.dir, ItemColor(colors, items[j]))
    ensures forall j, d :: 0 <= j < |items| && 0 <= d < 6 && !occupied(Neighbour(CellOf(items[j]), d)) ==>
              FaceAt(CellOf(items[j]), d, ItemColor(colors, items[j])) in AllFaces(occupied, colors, items)
  {
    forall f | f in AllFaces(occupied, colors, items)
      ensures exists j :: 0 <= j < |items| && 0 <= f.dir < 6 && !occupied(Neighbour(CellOf(items[j]), f.dir))
                       && f == FaceAt(CellOf(items[j]), f.dir, ItemColor(colors, items[j]))
    {
      var j := AllFacesSource(occupied, colors, items, f);
    }
    forall j, d | 0 <= j < |items| && 0 <= d < 6 && !occupied(Neighbour(CellOf(items[j]), d))
      ensures FaceAt(CellOf(items[j]), d, ItemColor(colors, items[j])) in AllFaces(occupied, colors, items)
    {
      AllFacesVisible(occupied, colors, items, j, d);
    }
  }

  /** How many of the six neighbours of `c` are occupied, one test per direction. */
  ghost function OccupiedNeighbours(c: Cell, occupied: Cell -> bool): int
  {
    (if occupied(Neighbour(c, 0)) then 1 else 0) + (if occupied(Neighbour(c, 1)) then 1 else 0)
    + (if occupied(Neighbour(c, 2)) then 1 else 0) + (if occupied(Neighbour(c, 3)) then 1 else 0)
    + (if occupied(Neighbour(c, 4)) then 1 else 0) + (if occupied(Neighbour(c, 5)) then 1 else 0)
  }

  /** The faces the voxels of `items` expose: six each, less their occupied neighbours. */
  ghost function Exposed(occupied: Cell -> bool, items: seq<KeyValuePair<int>>): int
    decreases |items|
  {
    if |items| == 0 then 0
    else Exposed(occupied, items[..|items| - 1]) + (6 - OccupiedNeighbours(CellOf(items[|items| - 1]), occupied))
  }

  /** `Around` counts the occupied neighbours. */
  lemma CountAround(c: Cell, occupied: Cell -> bool)
    ensures CountFrom(Around(c, occupied), 0) == OccupiedNeighbours(c, occupied)
  {
    var p := Around(c, occupied);
    AroundAt(c, occupied, 0); AroundAt(c, occupied, 1); AroundAt(c, occupied, 2);
    AroundAt(c, occupied, 3); AroundAt(c, occupied, 4); AroundAt(c, occupied, 5);
    assert CountFrom(p, 5) == if p[5] then 1 else 0;
    assert CountFrom(p, 4) == (if p[4] then 1 else 0) + CountFrom(p, 5);
    assert CountFrom(p, 3) == (if p[3] then 1 else 0) + CountFrom(p, 4);
    assert CountFrom(p, 2) == (if p[2] then 1 else 0) + CountFrom(p, 3);
    assert CountFrom(p, 1) == (if p[1] then 1 else 0) + CountFrom(p, 2);
  }

  /**
   * The mesh has one face per voxel and unoccupied direction: six per voxel less its occupied
   * neighbours, so at most six per voxel.
   */
  lemma {:induction false} AllFacesCount(occupied: Cell -> bool, colors: seq<Color>, items: seq<KeyValuePair<int>>)
    requires forall j :: 0 <= j < |items| ==> items[j].value >= 0
    ensures |AllFaces(occupied, colors, items)| == Exposed(occupied, items)
    ensures |AllFaces(occupied, colors, items)| <= 6 * |items|
    decreases |items|
  {
    if |items| > 0 {
      var n := |items| - 1;
      var c := CellOf(items[n]);
      var rest, last := AllFacesLast(occupied, colors, items);
      AllFacesCount(occupied, colors, items[..n]);
      FacesFromCount(c, ItemColor(colors, items[n]), Around(c, occupied), 0);
      CountAround(c, occupied);
      assert |last| == 6 - OccupiedNeighbours(c, occupied);
    }
  }

  /**
   * The mesh depends on the occupancy only through the neighbours of the voxels: two
   * occupancies that agree there give the same faces.
   */
  lemma {:induction false} AllFacesSame(occupied: Cell -> bool, occupied': Cell -> bool, colors: seq<Color>,
                                        items: seq<KeyValuePair<int>>)
    requires forall j :: 0 <= j < |items| ==> items[j].value >= 0
    requires forall j, d :: 0 <= j < |items| && 0 <= d < 6 ==>
               occupied(Neighbour(CellOf(items[j]), d)) == occupied'(Neighbour(CellOf(items[j]), d))
    ensures AllFaces(occupied, colors, items) == AllFaces(occupied', colors, items)
    decreases |items|
  {
    if |items| > 0 {
      var n := |items| - 1;
      var c := CellOf(items[n]);
      forall j, d | 0 <= j < n && 0 <= d < 6
        ensures occupied(Neighbour(CellOf(items[..n][j]), d)) == occupied'(Neighbour(CellOf(items[..n][j]), d))
      {
        assert items[..n][j] == items[j];
      }
      AllFacesSame(occupied, occupied', colors, items[..n]);
      AroundSame(c, occupied, occupied');
    }
  }
}
