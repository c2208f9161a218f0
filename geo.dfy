// Geometry and the quadblock record as far as the level compiler reads it.
//
// Coordinates are reals: the compiler only compares, adds and halves them,
// and the single-precision rounding is not part of this model.  A quadblock
// keeps exactly the attributes the partition tree, the path generator, the
// turbo-pad maintenance and the file layout look at.

module Geo {

  datatype Vec3 = Vec3(x: real, y: real, z: real)

  /** Vec3(): the origin. */
  const Origin := Vec3(0.0, 0.0, 0.0)

  function Sub(a: Vec3, b: Vec3): Vec3 {
    Vec3(a.x - b.x, a.y - b.y, a.z - b.z)
  }

  /** The split axis of a partition node (AxisSplit::NONE is `NoAxis`). */
  datatype Axis = NoAxis | AxisX | AxisY | AxisZ

  datatype BoundingBox = BoundingBox(min: Vec3, max: Vec3)

  /**
   * BoundingBox::Midpoint, taken as the centre of the box (geo.cpp, which
   * defines it, is not part of this model).
   */
  function Midpoint(b: BoundingBox): Vec3 {
    Vec3((b.min.x + b.max.x) / 2.0, (b.min.y + b.max.y) / 2.0, (b.min.z + b.max.z) / 2.0)
  }

  function Min(a: real, b: real): real {
    if b < a then b else a
  }

  function Max(a: real, b: real): real {
    if a < b then b else a
  }

  /** Component of `v` along a split axis. */
  function Coord(v: Vec3, a: Axis): real
    requires a != NoAxis
  {
    match a
    case AxisX => v.x
    case AxisY => v.y
    case AxisZ => v.z
  }

  /** std::numeric_limits<float>::max() = (2 - 2^-23) * 2^127. */
  const FltMax: real := 340282346638528859811704183484516925440.0

  /** std::numeric_limits<float>::min(), the smallest positive normal float, 2^-126. */
  const FltMin: real := 1.0 / 85070591730234615865843651857942052864.0

  /** A vertex; `==` on vertices compares all four attributes. */
  datatype Vertex = Vertex(pos: Vec3, flags: nat, colorHigh: nat, colorLow: nat)

  /** The QuadFlags bits the compiler tests or sets. */
  datatype QuadFlag = Invisible | InvisibleTrigger | TriggerScript | Wall | Default | OtherFlag(bit: nat)

  datatype Terrain = TurboPadTerrain | SuperTurboPadTerrain | OtherTerrain(code: nat)

  datatype QuadTrigger = NoTrigger | TurboPadTrigger | SuperTurboPadTrigger

  datatype Quadblock = Quadblock(
    name: string,
    bbox: BoundingBox,
    center: Vec3,
    vertices: seq<Vertex>,
    flags: set<QuadFlag>,
    terrain: Terrain,
    trigger: QuadTrigger,
    turboPadIndex: nat,
    checkpoint: int,
    checkpointStatus: bool,
    hide: bool)

  /** The quads whose bit the visibility bitset clears. */
  predicate HiddenFromVisibility(q: Quadblock) {
    Invisible in q.flags || InvisibleTrigger in q.flags
  }
}
