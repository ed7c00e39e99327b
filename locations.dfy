/**
  Grid locations and the two coordinate systems of a maze.

  A maze of width W and height H has a "compact" representation, one unit per
  room (W by H), and a "block" representation in which walls take up cells of
  their own ((2W+1) by (2H+1)). Room (x, y) of the compact grid sits at block
  (2x+1, 2y+1); every block location with an even coordinate is a wall
  position.
 */
module Locations {

  datatype Option<+T> = None | Some(value: T)

  /** A position (x, y); x grows towards the East, y towards the South. */
  datatype GridLocation = GridLocation(x: int, y: int)

  /** The neighbour one step East. */
  function East(p: GridLocation): GridLocation { GridLocation(p.x + 1, p.y) }

  /** The neighbour one step South. */
  function South(p: GridLocation): GridLocation { GridLocation(p.x, p.y + 1) }

  /** Whether p lies in the rectangle [0, width) x [0, height). */
  predicate Within(p: GridLocation, width: int, height: int) {
    0 <= p.x < width && 0 <= p.y < height
  }

  /** The block location of room p: always a location with two odd coordinates. */
  function CompactToBlock(p: GridLocation): (b: GridLocation)
    ensures b.x % 2 == 1 && b.y % 2 == 1
    ensures b.x / 2 == p.x && b.y / 2 == p.y
  {
    GridLocation(p.x * 2 + 1, p.y * 2 + 1)
  }

  /**
    The room at block location b, or None when b has an even coordinate (a
    wall position). Dafny's `/` and `%` by 2 round towards negative infinity
    exactly as Python's `//` and `%` do, negative coordinates included.
   */
  function BlockToCompact(b: GridLocation): (r: Option<GridLocation>)
    ensures r.None? <==> (b.x % 2 == 0 || b.y % 2 == 0)
    ensures r.Some? ==> CompactToBlock(r.value) == b
  {
    if b.x % 2 == 1 && b.y % 2 == 1 then Some(GridLocation(b.x / 2, b.y / 2)) else None
  }

  /** Converting a room to block coordinates and back gives the room again. */
  lemma CompactRoundTrip(p: GridLocation)
    ensures BlockToCompact(CompactToBlock(p)) == Some(p)
  {
  }

  /** A room lies in the compact grid exactly when its block lies strictly inside the block grid. */
  lemma CompactToBlockWithin(p: GridLocation, width: int, height: int)
    ensures Within(p, width, height) <==>
            (0 < CompactToBlock(p).x < 2 * width && 0 < CompactToBlock(p).y < 2 * height)
  {
  }
}
