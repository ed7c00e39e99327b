/**
  Drawing a maze in the block representation (Maze.__drawRow and
  Maze.drawBlocks of the source): one line of characters per block row, a
  block character where there is a wall block and a space character
  elsewhere, lines separated by a newline and no newline after the last.
 */
module Drawing {
  import opened Locations
  import opened Grids
  import opened Passages
  import opened Mazes

  /** An in-memory text stream (the StringIO the source writes to): text only grows. */
  class TextStream {
    var text: string

    constructor ()
      ensures text == ""
    {
      text := "";
    }

    /** Appends s to the text written so far. */
    method Write(s: string)
      modifies this
      ensures text == old(text) + s
    {
      text := text + s;
    }
  }

  /** Block row y as drawn: for x across the block grid, block where HasBlockAt holds, space elsewhere. */
  function Row(m: Maze, y: int, block: char, space: char): string
    requires m.Valid()
  {
    seq(m.BlocksWidth(), x => if m.HasBlockAt(GridLocation(x, y)) then block else space)
  }

  /** The block rows 0 .. BlocksHeight() - 1 as drawn. */
  function Picture(m: Maze, block: char, space: char): seq<string>
    requires m.Valid()
  {
    seq(m.BlocksHeight(), y => Row(m, y, block, space))
  }

  /** Lines joined by newlines, none after the last. */
  function JoinLines(lines: seq<string>): string {
    if |lines| == 0 then ""
    else if |lines| == 1 then lines[0]
    else JoinLines(lines[..|lines| - 1]) + "\n" + lines[|lines| - 1]
  }

  /** Where line y starts in lines of w characters each joined by newlines: y * (w + 1). */
  function LineStart(y: nat, w: nat): nat {
    if y == 0 then 0 else LineStart(y - 1, w) + w + 1
  }

  /** LineStart is the closed form y * (w + 1): each earlier line and its newline come first. */
  lemma {:induction false} LineStartClosedForm(y: nat, w: nat)
    ensures LineStart(y, w) == y * (w + 1)
  {
    if y > 0 {
      LineStartClosedForm(y - 1, w);
      assert (y - 1) * (w + 1) + w + 1 == y * (w + 1);
    }
  }

  /** n joined lines of w characters each take LineStart(n, w) - 1 characters. */
  lemma {:induction false} JoinLinesLength(lines: seq<string>, w: nat)
    requires |lines| > 0
    requires forall y :: 0 <= y < |lines| ==> |lines[y]| == w
    ensures |JoinLines(lines)| == LineStart(|lines|, w) - 1
  {
    if |lines| > 1 {
      JoinLinesLength(lines[..|lines| - 1], w);
    }
  }

  /** Line y of joined lines of w characters each sits at LineStart(y, w). */
  lemma {:induction false} JoinLinesLine(lines: seq<string>, w: nat, y: nat)
    requires forall i :: 0 <= i < |lines| ==> |lines[i]| == w
    requires y < |lines|
    ensures LineStart(y, w) + w <= |JoinLines(lines)|
    ensures JoinLines(lines)[LineStart(y, w)..LineStart(y, w) + w] == lines[y]
  {
    var n := |lines|;
    if n > 1 {
      var front := lines[..n - 1];
      var s := JoinLines(front);
      JoinLinesLength(front, w);
      assert JoinLines(lines) == s + "\n" + lines[n - 1];
      if y < n - 1 {
        JoinLinesLine(front, w, y);
        assert lines[y] == front[y];
      } else {
        assert LineStart(y, w) == |s| + 1;
      }
    }
  }

  /** A newline follows line y of joined lines of w characters each, unless it is the last. */
  lemma {:induction false} JoinLinesNewline(lines: seq<string>, w: nat, y: nat)
    requires forall i :: 0 <= i < |lines| ==> |lines[i]| == w
    requires y < |lines| - 1
    ensures LineStart(y, w) + w < |JoinLines(lines)|
    ensures JoinLines(lines)[LineStart(y, w) + w] == '\n'
  {
    var n := |lines|;
    var front := lines[..n - 1];
    var s := JoinLines(front);
    JoinLinesLength(front, w);
    assert JoinLines(lines) == s + "\n" + lines[n - 1];
    if y < n - 2 {
      JoinLinesNewline(front, w, y);
    }
  }

  /**
    Writes block row y to strio (Maze.__drawRow): the text written so far is
    followed by the row's BlocksWidth() characters, block where HasBlockAt
    holds and space elsewhere.
   */
  method DrawRow(m: Maze, y: int, strio: TextStream, block: char, space: char)
    requires m.Valid()
    modifies strio
    ensures strio.text == old(strio.text) + Row(m, y, block, space)
  {
    ghost var before := strio.text;
    for x := 0 to m.BlocksWidth()
      invariant strio.text == before + Row(m, y, block, space)[..x]
    {
      strio.Write(if m.HasBlockAt(GridLocation(x, y)) then [block] else [space]);
      assert Row(m, y, block, space)[..x + 1] == Row(m, y, block, space)[..x] + [Row(m, y, block, space)[x]];
    }
    assert Row(m, y, block, space)[..m.BlocksWidth()] == Row(m, y, block, space);
  }

  /**
    Draws the whole maze (Maze.drawBlocks): the first row, then a newline
    and the next row for every further row, so the block rows joined by
    newlines with no newline at the end (PictureLayout spells the result
    out character by character).
   */
  method DrawBlocks(m: Maze, block: char, space: char) returns (s: string)
    requires m.Valid()
    ensures s == JoinLines(Picture(m, block, space))
  {
    var picture := Picture(m, block, space);
    var strio := new TextStream();
    DrawRow(m, 0, strio, block, space);
    assert picture[..1] == [picture[0]];
    for y := 1 to m.BlocksHeight()
      invariant strio.text == JoinLines(picture[..y])
    {
      strio.Write("\n");
      DrawRow(m, y, strio, block, space);
      assert picture[..y + 1][..y] == picture[..y];
    }
    assert picture[..m.BlocksHeight()] == picture;
    s := strio.text;
  }

  /**
    The drawing character by character: BlocksHeight() lines of
    BlocksWidth() characters, the character at column x of line y is block
    exactly where HasBlockAt holds at (x, y) and space elsewhere, and a
    newline ends every line but the last.
   */
  lemma PictureLayout(m: Maze, block: char, space: char)
    requires m.Valid()
    ensures |JoinLines(Picture(m, block, space))| == LineStart(m.BlocksHeight(), m.BlocksWidth()) - 1
    ensures forall x, y :: 0 <= x < m.BlocksWidth() && 0 <= y < m.BlocksHeight() ==>
              && LineStart(y, m.BlocksWidth()) + x < |JoinLines(Picture(m, block, space))|
              && JoinLines(Picture(m, block, space))[LineStart(y, m.BlocksWidth()) + x] ==
                   if m.HasBlockAt(GridLocation(x, y)) then block else space
    ensures forall y :: 0 <= y < m.BlocksHeight() - 1 ==>
              && LineStart(y, m.BlocksWidth()) + m.BlocksWidth() < |JoinLines(Picture(m, block, space))|
              && JoinLines(Picture(m, block, space))[LineStart(y, m.BlocksWidth()) + m.BlocksWidth()] == '\n'
  {
    var picture, w := Picture(m, block, space), m.BlocksWidth();
    var s := JoinLines(picture);
    JoinLinesLength(picture, w);
    forall x, y | 0 <= x < w && 0 <= y < m.BlocksHeight()
      ensures LineStart(y, w) + x < |s|
      ensures s[LineStart(y, w) + x] == if m.HasBlockAt(GridLocation(x, y)) then block else space
    {
      JoinLinesLine(picture, w, y);
      assert s[LineStart(y, w)..LineStart(y, w) + w][x] == picture[y][x];
    }
    forall y | 0 <= y < m.BlocksHeight() - 1
      ensures LineStart(y, w) + w < |s| && s[LineStart(y, w) + w] == '\n'
    {
      JoinLinesNewline(picture, w, y);
    }
  }

  /**
    What the drawing shows of a well-formed maze, drawn with two different
    characters: a location inside the block grid is drawn as space exactly
    when it is a room or the block between two rooms joined by a passage.
   */
  lemma DrawingShowsPassages(m: Maze, block: char, space: char, x: int, y: int)
    requires m.WellFormed() && block != space
    requires 0 <= x < m.BlocksWidth() && 0 <= y < m.BlocksHeight()
    ensures (Picture(m, block, space)[y][x] == space) <==> m.IsOpen(GridLocation(x, y))
  {
    HasBlockAtIsClosed(m, GridLocation(x, y));
  }
}
