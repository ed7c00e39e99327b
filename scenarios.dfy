/**
  Small mazes worked out completely: what construction and drawing must
  produce for one room and for two rooms side by side.
 */
module Scenarios {
  import opened Locations
  import opened Grids
  import opened Passages
  import opened Mazes
  import opened Drawing

  /**
    A well-formed maze of one room (what Maze(1, 1) builds) has no passage:
    no direction is open from its room, and it is drawn as the room
    surrounded by wall blocks.
   */
  lemma SingleRoom(m: Maze)
    requires m.WellFormed() && m.width == 1 && m.height == 1
    ensures m.WaysFrom(GridLocation(0, 0)) == []
    ensures JoinLines(Picture(m, '*', ' ')) == "***\n* *\n***"
  {
    var room := At(m.wayGrid, GridLocation(0, 0));
    assert WayList(room) && 'E' !in room && 'S' !in room;
    NoWays(room);
    var picture := Picture(m, '*', ' ');
    assert m.HasBlockAt(GridLocation(0, 1)) && m.HasBlockAt(GridLocation(2, 1));
    assert m.HasBlockAt(GridLocation(1, 0)) && m.HasBlockAt(GridLocation(1, 2));
    assert picture[0] == "***" && picture[1] == "* *" && picture[2] == "***";
    assert picture[..2][..1] == [picture[0]];
    assert JoinLines(picture[..2]) == "***\n* *";
  }

  /**
    A well-formed maze of two rooms side by side with one passage (what
    Maze(2, 1) builds, whatever the shuffle) has the passage between them:
    East is the only way out of the western room and West the only way out
    of the eastern room.
   */
  lemma TwoRoomsJoined(m: Maze)
    requires m.WellFormed() && m.width == 2 && m.height == 1
    requires PassageCount(m.wayGrid) == 1
    ensures m.WaysFrom(GridLocation(0, 0)) == ['E']
    ensures m.WaysFrom(GridLocation(1, 0)) == ['W']
  {
    var west, east := At(m.wayGrid, GridLocation(0, 0)), At(m.wayGrid, GridLocation(1, 0));
    assert WayList(east) && 'E' !in east && 'S' !in east;
    NoWays(east);
    var row := m.wayGrid[0];
    assert |row| == 2 && row[0] == west && row[1] == east;
    assert RowTotal(row[..1], WayWeight) == |west| by {
      assert row[..1][..0] == [];
    }
    assert RowTotal(row, WayWeight) == |west| + |east|;
    assert m.wayGrid[..0] == [] && Total(m.wayGrid[..0], WayWeight) == 0;
    assert PassageCount(m.wayGrid) == |west| + |east|;
    assert WayList(west) && 'S' !in west;
    assert west == ['E'];
  }
}
