/**
  A maze and its queries (class Maze of the source, apart from construction
  and drawing): the directions open from a room, and whether the block
  representation has a wall block at a location.
 */
module Mazes {
  import opened Locations
  import opened Grids
  import opened Passages

  /**
    Python's `s[i]` for -|s| <= i < |s|: a negative index counts from the
    end of the list.
   */
  function PyIndex<T>(s: seq<T>, i: int): (r: T)
    requires -|s| <= i < |s|
    ensures r == s[(i + |s|) % |s|]
  {
    if i < 0 then s[|s| + i] else s[i]
  }

  /** The neighbour of p one step in direction d ('N', 'E', 'S' or 'W'; p itself otherwise). */
  function Step(p: GridLocation, d: char): GridLocation {
    match d
    case 'N' => GridLocation(p.x, p.y - 1)
    case 'E' => GridLocation(p.x + 1, p.y)
    case 'S' => GridLocation(p.x, p.y + 1)
    case 'W' => GridLocation(p.x - 1, p.y)
    case _ => p
  }

  /**
    A maze of `width` by `height` rooms whose passages are recorded in
    `wayGrid`, indexed by compact locations. Nothing changes it once it is
    built.
   */
  datatype Maze = Maze(width: int, height: int, wayGrid: Ways) {

    /** Characters across in the block representation. */
    function BlocksWidth(): int { width * 2 + 1 }

    /** Characters down in the block representation. */
    function BlocksHeight(): int { height * 2 + 1 }

    /** Positive size, and one way list per room. */
    predicate Valid() {
      width > 0 && height > 0 && Shaped(wayGrid, width, height)
    }

    /**
      What construction guarantees of the passages: every way list holds 'E'
      and 'S' at most once each, 'E' never in the last column and 'S' never
      in the last row.
     */
    ghost predicate WellFormed() {
      && Valid()
      && forall p :: Within(p, width, height) ==>
           && WayList(At(wayGrid, p))
           && ('E' in At(wayGrid, p) ==> p.x < width - 1)
           && ('S' in At(wayGrid, p) ==> p.y < height - 1)
    }

    /**
      The directions open from room p (Maze.waysFrom): the room's own list,
      then 'W' when the room to the West has an East passage, then 'N' when
      the room to the North has a South passage; nothing outside the maze.
      The room's list is copied, not changed.
     */
    function WaysFrom(p: GridLocation): (ways: seq<char>)
      requires Valid()
      ensures !Within(p, width, height) ==> ways == []
      ensures Within(p, width, height) ==> At(wayGrid, p) <= ways && |ways| <= |At(wayGrid, p)| + 2
    {
      if p.x >= 0 && p.x < width && p.y >= 0 && p.y < height then
        var ways := At(wayGrid, p);
        var ways := if p.x > 0 && 'E' in At(wayGrid, GridLocation(p.x - 1, p.y)) then ways + ['W'] else ways;
        var ways := if p.y > 0 && 'S' in At(wayGrid, GridLocation(p.x, p.y - 1)) then ways + ['N'] else ways;
        ways
      else
        []
    }

    /**
      The way list of compact location p with Python's list indexing, where
      index -1 is the last column or row.
     */
    function PyWays(p: GridLocation): (ways: seq<char>)
      requires Valid() && -width <= p.x < width && -height <= p.y < height
      ensures ways == At(wayGrid, GridLocation((p.x + width) % width, (p.y + height) % height))
    {
      PyIndex(PyIndex(wayGrid, p.y), p.x)
    }

    /**
      Whether block location p holds a wall block (Maze.hasBlockAt). Outside
      the block grid and where both coordinates are even there is always a
      block; between two rooms side by side (even x, odd y) there is one
      unless the western room has an East passage, and between two rooms one
      above the other (odd x, even y) unless the northern room has a South
      passage. On the western and northern border the room consulted is at
      compact x or y -1, which Python reads as the last column or row.
     */
    function HasBlockAt(p: GridLocation): (blocked: bool)
      requires Valid()
      ensures !(0 <= p.x < BlocksWidth() && 0 <= p.y < BlocksHeight()) ==> blocked
      ensures p.x % 2 == 0 && p.y % 2 == 0 ==> blocked
      ensures (0 <= p.x < BlocksWidth() && 0 <= p.y < BlocksHeight() && p.x % 2 == 1 && p.y % 2 == 1) ==> !blocked
    {
      || p.x < 0 || p.y < 0 || p.x >= BlocksWidth() || p.y >= BlocksHeight()
      || (p.x % 2 == 0 && p.y % 2 == 0)
      || (p.x % 2 == 0 && p.y % 2 == 1 && 'E' !in PyWays(GridLocation((p.x - 1) / 2, p.y / 2)))
      || (p.x % 2 == 1 && p.y % 2 == 0 && 'S' !in PyWays(GridLocation(p.x / 2, (p.y - 1) / 2)))
    }

    /**
      Reference definition of the open block locations, with no index wrap:
      the block of a room, or the block between two rooms linked by a
      recorded passage.
     */
    ghost predicate IsOpen(p: GridLocation)
      requires Valid()
    {
      || (BlockToCompact(p).Some? && Within(BlockToCompact(p).value, width, height))
      || (p.x % 2 == 0 && p.y % 2 == 1 && 0 < p.x < BlocksWidth() - 1 && 0 < p.y < BlocksHeight()
          && Linked(wayGrid, GridLocation(p.x / 2 - 1, p.y / 2), GridLocation(p.x / 2, p.y / 2)))
      || (p.x % 2 == 1 && p.y % 2 == 0 && 0 < p.x < BlocksWidth() && 0 < p.y < BlocksHeight() - 1
          && Linked(wayGrid, GridLocation(p.x / 2, p.y / 2 - 1), GridLocation(p.x / 2, p.y / 2)))
    }
  }

  /** The block of a room of the maze is never a wall block. */
  lemma RoomIsOpen(m: Maze, c: GridLocation)
    requires m.Valid() && Within(c, m.width, m.height)
    ensures !m.HasBlockAt(CompactToBlock(c))
  {
  }

  /**
    In a well-formed maze the block representation is exactly the reference
    one: a location is a wall block if and only if it is neither a room nor
    the block between two linked rooms. This is where the index wrap at the
    western and northern border is shown harmless: the wrapped-to room is in
    the last column or row, which never records 'E' or 'S'.
   */
  lemma {:induction false} HasBlockAtIsClosed(m: Maze, p: GridLocation)
    requires m.WellFormed()
    ensures m.HasBlockAt(p) <==> !m.IsOpen(p)
  {
    if 0 <= p.x < m.BlocksWidth() && 0 <= p.y < m.BlocksHeight() {
      if p.x % 2 == 0 && p.y % 2 == 1 {
        BetweenColumns(m, p);
      } else if p.x % 2 == 1 && p.y % 2 == 0 {
        BetweenRows(m, p);
      }
    }
  }

  /** HasBlockAtIsClosed for a block between two rooms side by side. */
  lemma BetweenColumns(m: Maze, p: GridLocation)
    requires m.WellFormed()
    requires 0 <= p.x < m.BlocksWidth() && 0 <= p.y < m.BlocksHeight() && p.x % 2 == 0 && p.y % 2 == 1
    ensures m.HasBlockAt(p) <==> !m.IsOpen(p)
  {
    var y := p.y / 2;
    if p.x == 0 {
      assert m.PyWays(GridLocation((p.x - 1) / 2, y)) == At(m.wayGrid, GridLocation(m.width - 1, y));
    } else {
      var a := GridLocation(p.x / 2 - 1, y);
      assert (p.x - 1) / 2 == p.x / 2 - 1;
      assert m.PyWays(GridLocation((p.x - 1) / 2, y)) == At(m.wayGrid, a);
      if p.x < m.BlocksWidth() - 1 {
        assert Linked(m.wayGrid, a, East(a)) <==> 'E' in At(m.wayGrid, a);
      }
    }
  }

  /** HasBlockAtIsClosed for a block between two rooms one above the other. */
  lemma BetweenRows(m: Maze, p: GridLocation)
    requires m.WellFormed()
    requires 0 <= p.x < m.BlocksWidth() && 0 <= p.y < m.BlocksHeight() && p.x % 2 == 1 && p.y % 2 == 0
    ensures m.HasBlockAt(p) <==> !m.IsOpen(p)
  {
    var x := p.x / 2;
    if p.y == 0 {
      assert m.PyWays(GridLocation(x, (p.y - 1) / 2)) == At(m.wayGrid, GridLocation(x, m.height - 1));
    } else {
      var a := GridLocation(x, p.y / 2 - 1);
      assert (p.y - 1) / 2 == p.y / 2 - 1;
      assert m.PyWays(GridLocation(x, (p.y - 1) / 2)) == At(m.wayGrid, a);
      if p.y < m.BlocksHeight() - 1 {
        assert Linked(m.wayGrid, a, South(a)) <==> 'S' in At(m.wayGrid, a);
      }
    }
  }

  /** Every location on the border of the block grid of a well-formed maze is a wall block. */
  lemma BorderIsBlocked(m: Maze, p: GridLocation)
    requires m.WellFormed()
    requires p.x == 0 || p.y == 0 || p.x == m.BlocksWidth() - 1 || p.y == m.BlocksHeight() - 1
    ensures m.HasBlockAt(p)
  {
    HasBlockAtIsClosed(m, p);
  }

  /**
    In a well-formed maze a direction is open from a room exactly when a
    passage links the room to its neighbour in that direction.
   */
  lemma {:induction false} WaysFromIsLinked(m: Maze, p: GridLocation, d: char)
    requires m.WellFormed() && Within(p, m.width, m.height)
    requires d == 'N' || d == 'E' || d == 'S' || d == 'W'
    ensures d in m.WaysFrom(p) <==> Linked(m.wayGrid, p, Step(p, d))
  {
    var own := At(m.wayGrid, p);
    var ways := m.WaysFrom(p);
    assert forall e :: e in ways ==> e in own || e == 'W' || e == 'N';
    assert 'W' !in own && 'N' !in own;
    if d == 'W' {
      assert 'W' in ways <==> p.x > 0 && 'E' in At(m.wayGrid, GridLocation(p.x - 1, p.y));
    } else if d == 'N' {
      assert 'N' in ways <==> p.y > 0 && 'S' in At(m.wayGrid, GridLocation(p.x, p.y - 1));
    } else {
      assert d in ways <==> d in own;
    }
  }

  /** The directions open from a room of a well-formed maze are compass points, none twice. */
  lemma {:induction false} WaysFromDistinct(m: Maze, p: GridLocation)
    requires m.WellFormed()
    ensures forall i :: 0 <= i < |m.WaysFrom(p)| ==> m.WaysFrom(p)[i] in "NESW"
    ensures forall i, j :: 0 <= i < j < |m.WaysFrom(p)| ==> m.WaysFrom(p)[i] != m.WaysFrom(p)[j]
  {
    if Within(p, m.width, m.height) {
      var own := At(m.wayGrid, p);
      assert WayList(own);
      var ways := m.WaysFrom(p);
      assert ways[..|own|] == own;
      assert forall i :: |own| <= i < |ways| ==> ways[i] == 'W' || ways[i] == 'N';
      assert |ways| == |own| + 2 ==> ways[|own|] == 'W' && ways[|own| + 1] == 'N';
    }
  }

  /**
    The order of the directions open from a room: the room's own list first,
    then 'W', then 'N'.
   */
  lemma {:induction false} WaysFromOrder(m: Maze, p: GridLocation, i: int, j: int)
    requires m.WellFormed()
    requires 0 <= i < |m.WaysFrom(p)| && 0 <= j < |m.WaysFrom(p)|
    requires m.WaysFrom(p)[i] == 'W' && m.WaysFrom(p)[j] == 'N'
    ensures |At(m.wayGrid, p)| <= i < j
  {
    var own := At(m.wayGrid, p);
    var ways := m.WaysFrom(p);
    assert WayList(own);
    assert ways[..|own|] == own;
    assert forall k :: |own| <= k < |ways| ==> ways[k] == 'W' || ways[k] == 'N';
    assert |ways| == |own| + 2 ==> ways[|own|] == 'W' && ways[|own| + 1] == 'N';
  }

  /**
    Passages read the same from both ends: East is open from p exactly when
    West is open from the room East of p, and South exactly when North is
    open from the room South of p.
   */
  lemma {:induction false} WaysFromSymmetric(m: Maze, p: GridLocation)
    requires m.WellFormed()
    ensures 'E' in m.WaysFrom(p) <==> 'W' in m.WaysFrom(East(p))
    ensures 'S' in m.WaysFrom(p) <==> 'N' in m.WaysFrom(South(p))
  {
    var W, H := m.width, m.height;
    var e, s := East(p), South(p);
    if Within(p, W, H) {
      WaysFromIsLinked(m, p, 'E');
      WaysFromIsLinked(m, p, 'S');
      if Within(e, W, H) {
        WaysFromIsLinked(m, e, 'W');
        assert Step(e, 'W') == p;
      } else {
        assert 'E' !in At(m.wayGrid, p);
      }
      if Within(s, W, H) {
        WaysFromIsLinked(m, s, 'N');
        assert Step(s, 'N') == p;
      } else {
        assert 'S' !in At(m.wayGrid, p);
      }
    } else {
      if Within(e, W, H) {
        assert e.x == 0;
        assert 'W' !in At(m.wayGrid, e);
      }
      if Within(s, W, H) {
        assert s.y == 0;
        assert 'N' !in At(m.wayGrid, s);
      }
    }
  }
}
